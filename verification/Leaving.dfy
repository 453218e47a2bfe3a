/**
 When the emitted code for an expression is left: exactly when the source evaluation ends, and then for the
 first time with its result.
 */
module Leaving {
  import opened Prelude
  import opened Ast
  import opened Machine
  import opened Codegen
  import opened Semantics
  import opened Simulation
  import opened Correctness

  /** The activation is at insert point `h`. */
  ghost predicate AtExit(c: Ctx, h: Gen, s: State) { s.Run? && |s.stack| == |c.rest| + 1 && At(s.stack[0], h) }

  /** `e` is compiled at `g`, control is there in `fr`, and evaluating `e` does not get stuck. */
  ghost predicate Evaluates(c: Ctx, g: Gen, e: Expr, fr: Frame, vars: Vars, t: Trace) {
    && Begins(c, g, fr, vars) && NoRepeats(e) && GenExpr(c.m, g, e).Good? && Within(GenExpr(c.m, g, e).g, c.code)
    && forall k: nat :: !Eval(k, c.m, c.p, e, vars, t).Stuck?
  }

  /** Control leaves the code of the expression. */
  ghost predicate Leaves(c: Ctx, h: Gen, fr: Frame, t: Trace) {
    exists i: nat :: AtExit(c, h, Steps(c.m, c.mod, i, St(c, fr, t))) == true
  }

  /** Control is in the code of the expression for ever. */
  ghost predicate Remains(c: Ctx, g: Gen, h: Gen, fr: Frame, t: Trace) {
    forall i: nat :: Underway(c, g, h, Steps(c.m, c.mod, i, St(c, fr, t))) == true
  }

  ghost predicate EvalEnds(c: Ctx, e: Expr, vars: Vars, t: Trace) {
    exists k: nat :: Eval(k, c.m, c.p, e, vars, t).Done?
  }

  lemma NotAtExit(c: Ctx, g: Gen, h: Gen, s: State)
    requires Underway(c, g, h, s)
    ensures !AtExit(c, h, s)
  {
  }

  /** Control leaves the code of `e` if and only if the source evaluation ends. */
  lemma ExitIff(c: Ctx, g: Gen, e: Expr, fr: Frame, vars: Vars, t: Trace)
    requires Evaluates(c, g, e, fr, vars, t)
    ensures Leaves(c, GenExpr(c.m, g, e).g, fr, t) <==> EvalEnds(c, e, vars, t)
  {
    hide Begins, NoRepeats, GenExpr, Within, Eval, Steps, Underway, AtExit;
    var h := GenExpr(c.m, g, e).g;
    if Leaves(c, h, fr, t) {
      var i: nat :| AtExit(c, h, Steps(c.m, c.mod, i, St(c, fr, t)));
      var n, fr' := SimExpr(c, i, g, e, fr, vars, t);
      assert !Eval(i, c.m, c.p, e, vars, t).Stuck?;
      if Eval(i, c.m, c.p, e, vars, t).Timeout? {
        assert Underway(c, g, h, Steps(c.m, c.mod, i, St(c, fr, t)));
        NotAtExit(c, g, h, Steps(c.m, c.mod, i, St(c, fr, t)));
      }
    }
    if EvalEnds(c, e, vars, t) {
      var k: nat :| Eval(k, c.m, c.p, e, vars, t).Done?;
      var n, fr' := SimExpr(c, k, g, e, fr, vars, t);
      ExitReached(c, h, fr', Eval(k, c.m, c.p, e, vars, t).trace);
    }
  }

  lemma ExitReached(c: Ctx, h: Gen, fr: Frame, t: Trace)
    requires At(fr, h)
    ensures AtExit(c, h, St(c, fr, t))
  {
  }

  /** The first time control leaves the code of `e`, result, variables and events are those of the source. */
  lemma FirstExit(c: Ctx, g: Gen, e: Expr, fr: Frame, vars: Vars, t: Trace, i: nat, k: nat) returns (fr': Frame)
    requires Evaluates(c, g, e, fr, vars, t) && Eval(k, c.m, c.p, e, vars, t).Done?
    requires AtExit(c, GenExpr(c.m, g, e).g, Steps(c.m, c.mod, i, St(c, fr, t)))
    requires forall j: nat :: j < i ==> !AtExit(c, GenExpr(c.m, g, e).g, Steps(c.m, c.mod, j, St(c, fr, t)))
    ensures var o, r := GenExpr(c.m, g, e), Eval(k, c.m, c.p, e, vars, t);
            && Steps(c.m, c.mod, i, St(c, fr, t)) == St(c, fr', r.trace) && Value(fr', o.value) == Some(Dbl(r.value))
            && Agree(g.named, fr'.slots, r.vars) && Kept(g, fr, fr')
  {
    hide Begins, NoRepeats, GenExpr, Within, Eval, Steps, Underway, AtExit, Agree, Kept;
    var h := GenExpr(c.m, g, e).g;
    var n;
    n, fr' := SimExpr(c, k, g, e, fr, vars, t);
    ExitReached(c, h, fr', Eval(k, c.m, c.p, e, vars, t).trace);
    if i < n {
      assert Underway(c, g, h, Steps(c.m, c.mod, i, St(c, fr, t)));
      NotAtExit(c, g, h, Steps(c.m, c.mod, i, St(c, fr, t)));
    }
  }

  /** An evaluation that never ends, such as that of an endless `for`, is a run that never leaves the code of `e`. */
  lemma EndlessIff(c: Ctx, g: Gen, e: Expr, fr: Frame, vars: Vars, t: Trace)
    requires Evaluates(c, g, e, fr, vars, t)
    ensures !EvalEnds(c, e, vars, t) <==> Remains(c, g, GenExpr(c.m, g, e).g, fr, t)
  {
    hide Begins, NoRepeats, GenExpr, Within, Eval, Steps, Underway, AtExit;
    var h := GenExpr(c.m, g, e).g;
    if !EvalEnds(c, e, vars, t) {
      forall i: nat
        ensures Underway(c, g, h, Steps(c.m, c.mod, i, St(c, fr, t))) == true
      {
        var n, fr' := SimExpr(c, i, g, e, fr, vars, t);
        assert !Eval(i, c.m, c.p, e, vars, t).Done? && !Eval(i, c.m, c.p, e, vars, t).Stuck?;
      }
    }
    if Remains(c, g, h, fr, t) {
      forall i: nat
        ensures !AtExit(c, h, Steps(c.m, c.mod, i, St(c, fr, t)))
      {
        NotAtExit(c, g, h, Steps(c.m, c.mod, i, St(c, fr, t)));
      }
      ExitIff(c, g, e, fr, vars, t);
    }
  }
}
