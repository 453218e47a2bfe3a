/**
 Printing an expression with no more parentheses than needed, and why parsing the result gives the
 expression back.
 */
module Printer {
  import opened Prelude
  import A = Ast
  import opened Tokens
  import opened Parsing
  import opened Grammar
  import opened GrammarComplete
  import opened GrammarSound

  /** The expressions that have a text at all: operators the tables know, and no empty `var` list. */
  predicate Printable(t: Table, e: A.Expr)
    decreases e, 1
  {
    match e
    case Number(_) => true
    case Variable(_) => true
    case VarIn(bs, body) => bs != [] && PrintableBindings(t, bs) && Printable(t, body)
    case Unary(op, a) => UnaryToken(Char(op)) && Printable(t, a)
    case Binary(op, a, b) => Prec(t, Char(op)) > 0 && Printable(t, a) && Printable(t, b)
    case If(c, a, b) => Printable(t, c) && Printable(t, a) && Printable(t, b)
    case For(_, start, end, step, body) => Printable(t, start) && Printable(t, end) && PrintableOption(t, step)
        && Printable(t, body)
    case Call(_, args) => PrintableAll(t, args)
  }

  predicate PrintableAll(t: Table, es: seq<A.Expr>)
    decreases es, 0
  {
    es != [] ==> Printable(t, es[0]) && PrintableAll(t, es[1..])
  }

  predicate PrintableOption(t: Table, e: Option<A.Expr>)
    decreases e, 0
  {
    e.Some? ==> Printable(t, e.value)
  }

  predicate PrintableBindings(t: Table, bs: seq<A.Binding>)
    decreases bs, 0
  {
    bs != [] ==> PrintableOption(t, bs[0].init) && PrintableBindings(t, bs[1..])
  }

  /** Closing parentheses and commas cannot be binary operators as well. */
  predicate TableOk(t: Table) { Prec(t, CLOSE) < 0 && Prec(t, COMMA) < 0 }

  // ----- Printing -----

  /** How tight an operand must be; `None` for the operand of a unary operator. */
  type Level = Option<int>

  predicate Fits(t: Table, x: Tree, level: Level, k: Token) {
    (x.TBinary? ==> level.Some? && Prec(t, Char(x.op)) >= level.value) && Edge(t, x, k)
  }

  /** `e` where token `k` follows, in parentheses if it does not fit. */
  function Build(t: Table, e: A.Expr, level: Level, k: Token): Tree
    decreases e, 1
  {
    var x := Bare(t, e, k);
    if Fits(t, x, level, k) then x else TParen(Bare(t, e, CLOSE))
  }

  function Bare(t: Table, e: A.Expr, k: Token): Tree
    decreases e, 0
  {
    match e
    case Number(text) => TNumber(text)
    case Variable(x) => TVariable(x)
    case VarIn(bs, body) => TVar(BuildBindings(t, bs), Build(t, body, Some(0), k))
    case Unary(op, a) => TUnary(op, Build(t, a, None, k))
    case Binary(op, a, b) =>
      var p := Prec(t, Char(op));
      TBinary(op, Build(t, a, Some(p), Char(op)), Build(t, b, Some(p + 1), k))
    case If(c, a, b) => TIf(Build(t, c, Some(0), Token.Then), Build(t, a, Some(0), Token.Else), Build(t, b, Some(0), k))
    case For(x, start, end, step, body) =>
      TFor(x, Build(t, start, Some(0), COMMA), Build(t, end, Some(0), if step.Some? then COMMA else Token.In),
           BuildOption(t, step), Build(t, body, Some(0), k))
    case Call(f, args) => TCall(f, GuardFirst(BuildArgs(t, args)))
  }

  function BuildArgs(t: Table, es: seq<A.Expr>): (xs: seq<Tree>)
    ensures |xs| == |es|
    decreases es, 0
  {
    if es == [] then []
    else [Build(t, es[0], Some(0), if |es| == 1 then CLOSE else COMMA)] + BuildArgs(t, es[1..])
  }

  /** `f()` has no arguments, so a first argument that starts with `)` goes in parentheses. */
  function GuardFirst(xs: seq<Tree>): seq<Tree> {
    if xs != [] && Yield(xs[0])[0] == CLOSE then [TParen(xs[0])] + xs[1..] else xs
  }

  function BuildOption(t: Table, e: Option<A.Expr>): Option<Tree>
    decreases e, 0
  {
    if e.Some? then Some(Build(t, e.value, Some(0), Token.In)) else None
  }

  function BuildBindings(t: Table, bs: seq<A.Binding>): (xs: seq<TreeBinding>)
    ensures |xs| == |bs|
    decreases bs, 0
  {
    if bs == [] then []
    else [TreeBinding(bs[0].name, BuildOption(t, bs[0].init))] + BuildBindings(t, bs[1..])
  }

  /** The tokens of `e` where token `k` follows. */
  function Print(t: Table, e: A.Expr, k: Token): seq<Token> { Yield(Build(t, e, Some(0), k)) }

  // ----- What is printed is well-formed -----

  /** A token that is neither an operator nor `(` ends every expression. */
  lemma {:induction false} Closes(t: Table, x: Tree, k: Token)
    requires Prec(t, k) < 0 && k != OPEN
    ensures Closed(t, x, k)
  {
    match x
    case TNumber(_) =>
    case TVariable(_) =>
    case TParen(_) =>
    case TVar(_, body) => Closes(t, body, k);
    case TUnary(_, y) => Closes(t, y, k);
    case TBinary(_, _, r) => Closes(t, r, k);
    case TIf(_, _, z) => Closes(t, z, k);
    case TFor(_, _, _, _, body) => Closes(t, body, k);
    case TCall(_, _) =>
  }

  ghost predicate Printed(t: Table, x: Tree, e: A.Expr) { WF(t, x) && Strip(x) == e }

  lemma {:induction false} BuildPrints(t: Table, e: A.Expr, level: Level, k: Token)
    requires TableOk(t) && Printable(t, e)
    ensures Printed(t, Build(t, e, level, k), e) && Fits(t, Build(t, e, level, k), level, k)
    decreases e, 3
  {
    hide Bare, Edge, WF, Strip, Printable;
    BarePrints(t, e, k);
    BarePrints(t, e, CLOSE);
    Closes(t, Bare(t, e, CLOSE), CLOSE);
    ParenPrints(t, Bare(t, e, CLOSE), level, k);
  }

  lemma ParenPrints(t: Table, x: Tree, level: Level, k: Token)
    requires WF(t, x) && Closed(t, x, CLOSE)
    ensures WF(t, TParen(x)) && Strip(TParen(x)) == Strip(x) && Fits(t, TParen(x), level, k)
  {
  }

  lemma {:induction false} BarePrints(t: Table, e: A.Expr, k: Token)
    requires TableOk(t) && Printable(t, e)
    ensures Printed(t, Bare(t, e, k), e)
    decreases e, 2
  {
    hide Build, BuildArgs, BuildBindings, BuildOption, PrintableAll, PrintableBindings, PrintableOption, StripAll,
        StripBindings, StripOption, WFArgs, WFBindings, Closed, Yield, GuardFirst;
    match e
    case Number(_) =>
    case Variable(_) =>
    case VarIn(_, _) => VarPrints(t, e, k);
    case Unary(_, a) => BuildPrints(t, a, None, k);
    case Binary(op, a, b) =>
      var p := Prec(t, Char(op));
      BuildPrints(t, a, Some(p), Char(op));
      BuildPrints(t, b, Some(p + 1), k);
    case If(_, _, _) => IfPrints(t, e, k);
    case For(_, _, _, _, _) => ForPrints(t, e, k);
    case Call(_, _) => CallPrints(t, e, k);
  }

  lemma {:induction false} VarPrints(t: Table, e: A.Expr, k: Token)
    requires e.VarIn? && TableOk(t) && Printable(t, e)
    ensures Printed(t, Bare(t, e, k), e)
    decreases e, 1
  {
    hide Build, BuildBindings, PrintableBindings, StripBindings, WFBindings, Fits;
    BindingsPrint(t, e.bindings);
    BuildPrints(t, e.body, Some(0), k);
  }

  lemma {:induction false} IfPrints(t: Table, e: A.Expr, k: Token)
    requires e.If? && TableOk(t) && Printable(t, e)
    ensures Printed(t, Bare(t, e, k), e)
    decreases e, 1
  {
    hide Build, Fits;
    BuildPrints(t, e.cond, Some(0), Token.Then);
    BuildPrints(t, e.thn, Some(0), Token.Else);
    BuildPrints(t, e.els, Some(0), k);
  }

  lemma {:induction false} ForPrints(t: Table, e: A.Expr, k: Token)
    requires e.For? && TableOk(t) && Printable(t, e)
    ensures Printed(t, Bare(t, e, k), e)
    decreases e, 1
  {
    ForIsPrintable(t, e);
    hide Build, BuildOption, PrintableOption, Printable, StripOption, Strip, WF, Closed, Fits;
    var l := if e.step.Some? then COMMA else Token.In;
    BuildPrints(t, e.start, Some(0), COMMA);
    BuildPrints(t, e.end, Some(0), l);
    OptionPrints(t, e.step);
    BuildPrints(t, e.body, Some(0), k);
    Closes(t, Build(t, e.start, Some(0), COMMA), COMMA);
    Closes(t, Build(t, e.end, Some(0), l), COMMA);
    WholeFor(t, Bare(t, e, k));
  }

  lemma ForIsPrintable(t: Table, e: A.Expr)
    requires e.For? && Printable(t, e)
    ensures Printable(t, e.start) && Printable(t, e.end) && PrintableOption(t, e.step) && Printable(t, e.body)
  {
  }

  lemma WholeFor(t: Table, x: Tree)
    requires x.TFor? && WF(t, x.start) && Closed(t, x.start, COMMA) && WF(t, x.end) && Closed(t, x.end, COMMA)
             && WF(t, x.body)
    requires x.step.Some? ==> WF(t, x.step.value)
    ensures WF(t, x) && Strip(x) == A.For(x.name, Strip(x.start), Strip(x.end), StripOption(x.step), Strip(x.body))
  {
  }

  lemma {:induction false} CallPrints(t: Table, e: A.Expr, k: Token)
    requires e.Call? && TableOk(t) && Printable(t, e)
    ensures Printed(t, Bare(t, e, k), e)
    decreases e, 1
  {
    hide BuildArgs, PrintableAll, StripAll, WFArgs, Yield, GuardFirst;
    ArgsPrint(t, e.args);
    GuardPrints(t, BuildArgs(t, e.args));
  }

  lemma {:induction false} OptionPrints(t: Table, e: Option<A.Expr>)
    requires TableOk(t) && PrintableOption(t, e)
    ensures var x := BuildOption(t, e); StripOption(x) == e && (x.Some? <==> e.Some?) && (x.Some? ==> WF(t, x.value))
    decreases e, 0
  {
    hide Build, WF, Strip, Printable;
    if e.Some? {
      BuildPrints(t, e.value, Some(0), Token.In);
    }
  }

  lemma {:induction false} ArgsPrint(t: Table, es: seq<A.Expr>)
    requires TableOk(t) && PrintableAll(t, es)
    ensures WFArgs(t, BuildArgs(t, es)) && StripAll(BuildArgs(t, es)) == es
    decreases es, 0
  {
    hide Build, WF, Strip, Printable, Closed;
    if es != [] {
      var k := if |es| == 1 then CLOSE else COMMA;
      var x := Build(t, es[0], Some(0), k);
      BuildPrints(t, es[0], Some(0), k);
      Closes(t, x, k);
      ArgsPrint(t, es[1..]);
      var xs := BuildArgs(t, es);
      assert xs[0] == x && xs[1..] == BuildArgs(t, es[1..]);
    }
  }

  lemma GuardPrints(t: Table, xs: seq<Tree>)
    requires TableOk(t) && WFArgs(t, xs)
    ensures WFArgs(t, GuardFirst(xs)) && StripAll(GuardFirst(xs)) == StripAll(xs)
    ensures xs != [] ==> GuardFirst(xs) != [] && Yield(GuardFirst(xs)[0])[0] != CLOSE
  {
    hide Closed, Edge;
    if xs != [] && Yield(xs[0])[0] == CLOSE {
      var ys := GuardFirst(xs);
      assert ys[0] == TParen(xs[0]) && ys[1..] == xs[1..];
      Closes(t, xs[0], CLOSE);
      Closes(t, ys[0], if |xs| == 1 then CLOSE else COMMA);
      assert Yield(ys[0])[0] == OPEN;
    }
  }

  lemma {:induction false} BindingsPrint(t: Table, bs: seq<A.Binding>)
    requires TableOk(t) && PrintableBindings(t, bs)
    ensures WFBindings(t, BuildBindings(t, bs)) && StripBindings(BuildBindings(t, bs)) == bs
    decreases bs, 0
  {
    hide BuildOption, WF, StripOption, PrintableOption, Closed;
    if bs != [] {
      OptionPrints(t, bs[0].init);
      BindingsPrint(t, bs[1..]);
      var xs := BuildBindings(t, bs);
      assert xs[0] == TreeBinding(bs[0].name, BuildOption(t, bs[0].init)) && xs[1..] == BuildBindings(t, bs[1..]);
      if xs[0].init.Some? {
        Closes(t, xs[0].init.value, COMMA);
      }
    }
  }

  // ----- Main results -----

  /** Parsing what was printed gives the expression back and stops at the following token. */
  lemma RoundTrip(t: Table, e: A.Expr, rest: seq<Token>)
    requires TableOk(t) && Printable(t, e) && Prec(t, Head(rest)) < 0
    ensures ParseExpression(t, Print(t, e, Head(rest)) + rest) == Good(e, rest)
  {
    hide ParseExpression, Build, WF, Edge, Yield, Strip;
    BuildPrints(t, e, Some(0), Head(rest));
    ExpressionParsed(t, Build(t, e, Some(0), Head(rest)), rest);
  }

  /** Only printable expressions are ever parsed. */
  lemma {:induction false} ParsedIsPrintable(t: Table, x: Tree)
    requires WF(t, x)
    ensures Printable(t, Strip(x))
    decreases x, 1
  {
    hide Edge, Closed, Yield;
    match x
    case TNumber(_) =>
    case TVariable(_) =>
    case TParen(y) => ParsedIsPrintable(t, y);
    case TVar(bs, body) =>
      BindingsArePrintable(t, bs);
      ParsedIsPrintable(t, body);
    case TUnary(_, y) => ParsedIsPrintable(t, y);
    case TBinary(_, l, r) =>
      ParsedIsPrintable(t, l);
      ParsedIsPrintable(t, r);
    case TIf(c, y, z) =>
      ParsedIsPrintable(t, c);
      ParsedIsPrintable(t, y);
      ParsedIsPrintable(t, z);
    case TFor(_, start, end, step, body) =>
      ParsedIsPrintable(t, start);
      ParsedIsPrintable(t, end);
      if step.Some? {
        ParsedIsPrintable(t, step.value);
      }
      ParsedIsPrintable(t, body);
    case TCall(_, args) => ArgsArePrintable(t, args);
  }

  lemma {:induction false} ArgsArePrintable(t: Table, xs: seq<Tree>)
    requires WFArgs(t, xs)
    ensures PrintableAll(t, StripAll(xs))
    decreases xs, 0
  {
    hide WF, Printable, Closed;
    if xs != [] {
      ParsedIsPrintable(t, xs[0]);
      ArgsArePrintable(t, xs[1..]);
      assert StripAll(xs)[1..] == StripAll(xs[1..]);
    }
  }

  lemma {:induction false} BindingsArePrintable(t: Table, bs: seq<TreeBinding>)
    requires WFBindings(t, bs)
    ensures PrintableBindings(t, StripBindings(bs))
    decreases bs, 0
  {
    hide WF, Printable, Closed;
    if bs != [] {
      if bs[0].init.Some? {
        ParsedIsPrintable(t, bs[0].init.value);
      }
      BindingsArePrintable(t, bs[1..]);
      assert StripBindings(bs)[1..] == StripBindings(bs[1..]);
    }
  }

  /** Some tokens are parsed to exactly `e`. */
  ghost predicate HasText(t: Table, e: A.Expr) { exists s: seq<Token> :: ParseExpression(t, s) == Good(e, []) }

  /** With `)` and `,` kept out of the operator table, the printable expressions are those that can be written. */
  lemma WritableIff(t: Table, e: A.Expr)
    requires TableOk(t)
    ensures HasText(t, e) <==> Printable(t, e)
  {
    hide ParseExpression, Printable, Print, WF, Strip;
    if Printable(t, e) {
      RoundTrip(t, e, []);
      assert Print(t, e, Eof) + [] == Print(t, e, Eof);
    }
    if HasText(t, e) {
      var s :| ParseExpression(t, s) == Good(e, []);
      var x := ExpressionSound(t, s);
      ParsedIsPrintable(t, x);
    }
  }

  /** With `)` a binary operator nothing can be put in parentheses; with `,` one no call has two arguments. */
  lemma {:induction false} NeedsTable(t: Table, x: Tree)
    requires WF(t, x)
    ensures Prec(t, CLOSE) > 0 ==> !x.TParen? && Strip(x) != NESTED
    ensures Prec(t, COMMA) > 0 ==> Strip(x) != TWO_ARGS
  {
    hide Edge;
    match x
    case TParen(y) => NeedsTable(t, y);
    case TBinary(_, l, r) => NeedsTable(t, r);
    case TCall(_, args) =>
    case _ =>
  }

  const NESTED := A.Binary(')', A.Number("1"), A.Binary(')', A.Number("1"), A.Number("1")))
  const TWO_ARGS := A.Call("f", [A.Number("1"), A.Number("1")])

  /** Every printable expression can be written exactly when neither `)` nor `,` is a binary operator. */
  lemma TableOkIff(t: Table)
    ensures (forall e: A.Expr :: Printable(t, e) ==> HasText(t, e)) <==> TableOk(t)
  {
    hide ParseExpression, WF, Strip;
    if TableOk(t) {
      forall e: A.Expr | Printable(t, e)
        ensures HasText(t, e)
      {
        WritableIff(t, e);
      }
    } else {
      var e := if Prec(t, CLOSE) > 0 then NESTED else TWO_ARGS;
      assert Printable(t, e) by { ExamplesPrintable(t); }
      if HasText(t, e) {
        var s :| ParseExpression(t, s) == Good(e, []);
        var x := ExpressionSound(t, s);
        NeedsTable(t, x);
      }
    }
  }

  lemma ExamplesPrintable(t: Table)
    ensures Prec(t, CLOSE) > 0 ==> Printable(t, NESTED)
    ensures Printable(t, TWO_ARGS)
  {
    var args := [A.Number("1"), A.Number("1")];
    assert args[1..] == [A.Number("1")] && args[1..][1..] == [];
    assert PrintableAll(t, args[1..][1..]);
    assert PrintableAll(t, args[1..]);
  }
}
