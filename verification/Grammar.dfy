/**
 The concrete syntax the parser accepts: trees that keep their parentheses, the tokens they stand for,
 and when a tree is the one that the precedences of its operators ask for.
 */
module Grammar {
  import opened Prelude
  import A = Ast
  import opened Tokens
  import opened Parsing

  datatype TreeBinding = TreeBinding(name: string, init: Option<Tree>)

  datatype Tree =
    | TNumber(text: string)
    | TVariable(name: string)
    | TParen(inner: Tree)
    | TVar(bindings: seq<TreeBinding>, body: Tree)
    | TUnary(op: char, operand: Tree)
    | TBinary(op: char, lhs: Tree, rhs: Tree)
    | TIf(cond: Tree, thn: Tree, els: Tree)
    | TFor(name: string, start: Tree, end: Tree, step: Option<Tree>, body: Tree)
    | TCall(callee: string, args: seq<Tree>)

  // ----- Tokens of a tree -----

  function Yield(x: Tree): (s: seq<Token>)
    ensures s != [] && s[0] != Eof
    decreases x, 1
  {
    match x
    case TNumber(text) => [Number(text)]
    case TVariable(name) => [Identifier(name)]
    case TParen(y) => [OPEN] + Yield(y) + [CLOSE]
    case TVar(bs, body) => [Token.Var] + YieldBindings(bs) + [Token.In] + Yield(body)
    case TUnary(op, y) => [Char(op)] + Yield(y)
    case TBinary(op, l, r) => Yield(l) + [Char(op)] + Yield(r)
    case TIf(c, y, z) => [Token.If] + Yield(c) + [Token.Then] + Yield(y) + [Token.Else] + Yield(z)
    case TFor(n, start, end, step, body) =>
      [Token.For, Identifier(n), EQUALS] + Yield(start) + [COMMA] + Yield(end)
      + YieldAfter(COMMA, step) + [Token.In] + Yield(body)
    case TCall(f, args) => [Identifier(f), OPEN] + YieldArgs(args) + [CLOSE]
  }

  function YieldArgs(args: seq<Tree>): seq<Token>
    decreases args, 0
  {
    if args == [] then []
    else if |args| == 1 then Yield(args[0])
    else Yield(args[0]) + [COMMA] + YieldArgs(args[1..])
  }

  function YieldBindings(bs: seq<TreeBinding>): seq<Token>
    decreases bs, 0
  {
    if bs == [] then []
    else
      var first := [Identifier(bs[0].name)] + YieldAfter(EQUALS, bs[0].init);
      if |bs| == 1 then first else first + [COMMA] + YieldBindings(bs[1..])
  }

  /** An optional expression with the token in front of it. */
  function YieldAfter(k: Token, x: Option<Tree>): seq<Token>
    decreases x, 0
  {
    if x.Some? then [k] + Yield(x.value) else []
  }

  // ----- Forgetting the parentheses -----

  function Strip(x: Tree): A.Expr
    decreases x, 1
  {
    match x
    case TNumber(text) => A.Number(text)
    case TVariable(name) => A.Variable(name)
    case TParen(y) => Strip(y)
    case TVar(bs, body) => A.VarIn(StripBindings(bs), Strip(body))
    case TUnary(op, y) => A.Unary(op, Strip(y))
    case TBinary(op, l, r) => A.Binary(op, Strip(l), Strip(r))
    case TIf(c, y, z) => A.If(Strip(c), Strip(y), Strip(z))
    case TFor(n, start, end, step, body) =>
      A.For(n, Strip(start), Strip(end), StripOption(step), Strip(body))
    case TCall(f, args) => A.Call(f, StripAll(args))
  }

  function StripAll(args: seq<Tree>): (es: seq<A.Expr>)
    ensures |es| == |args|
    decreases args, 0
  {
    if args == [] then [] else [Strip(args[0])] + StripAll(args[1..])
  }

  function StripBindings(bs: seq<TreeBinding>): (r: seq<A.Binding>)
    ensures |r| == |bs|
    decreases bs, 0
  {
    if bs == [] then []
    else [A.Binding(bs[0].name, StripOption(bs[0].init))] + StripBindings(bs[1..])
  }

  function StripOption(x: Option<Tree>): Option<A.Expr>
    decreases x, 0
  {
    if x.Some? then Some(Strip(x.value)) else None
  }

  // ----- Which trees are well-formed -----

  /** How tightly the root binds: a binary operation is at least as tight as `p`. */
  predicate Tighter(t: Table, x: Tree, p: int) { x.TBinary? ==> Prec(t, Char(x.op)) >= p }

  /** No operand at the right edge would take the next token `k` for itself. */
  predicate Edge(t: Table, x: Tree, k: Token)
    decreases x, 0
  {
    match x
    case TNumber(_) => true
    case TVariable(_) => k != OPEN
    case TParen(_) => true
    case TVar(_, body) => Closed(t, body, k)
    case TUnary(_, y) => Edge(t, y, k)
    case TBinary(_, _, r) => Edge(t, r, k)
    case TIf(_, _, z) => Closed(t, z, k)
    case TFor(_, _, _, _, body) => Closed(t, body, k)
    case TCall(_, _) => true
  }

  /** A whole expression ends before `k`. */
  predicate Closed(t: Table, x: Tree, k: Token)
    decreases x, 1
  {
    Prec(t, k) < 0 && Edge(t, x, k)
  }

  /**
   Every left operand binds at least as tightly as its operator, every right operand more tightly, and no
   subexpression runs on over the token that follows it.
   */
  predicate WF(t: Table, x: Tree)
    decreases x, 1
  {
    match x
    case TNumber(_) => true
    case TVariable(_) => true
    case TParen(y) => WF(t, y) && Closed(t, y, CLOSE)
    case TVar(bs, body) => bs != [] && WFBindings(t, bs) && WF(t, body)
    case TUnary(op, y) => UnaryToken(Char(op)) && !y.TBinary? && WF(t, y)
    case TBinary(op, l, r) =>
      var p := Prec(t, Char(op));
      p > 0 && WF(t, l) && WF(t, r) && Tighter(t, l, p) && Tighter(t, r, p + 1) && Edge(t, l, Char(op))
    case TIf(c, y, z) => WF(t, c) && WF(t, y) && WF(t, z)
    case TFor(_, start, end, step, body) =>
      && WF(t, start) && Closed(t, start, COMMA) && WF(t, end)
      && (step.Some? ==> Closed(t, end, COMMA) && WF(t, step.value)) && WF(t, body)
    case TCall(_, args) => WFArgs(t, args) && (args != [] ==> Yield(args[0])[0] != CLOSE)
  }

  predicate WFArgs(t: Table, args: seq<Tree>)
    decreases args, 0
  {
    args != [] ==>
      && WF(t, args[0]) && Closed(t, args[0], if |args| == 1 then CLOSE else COMMA)
      && WFArgs(t, args[1..])
  }

  predicate WFBindings(t: Table, bs: seq<TreeBinding>)
    decreases bs, 0
  {
    bs != [] ==>
      && (bs[0].init.Some? ==> WF(t, bs[0].init.value) && (|bs| > 1 ==> Closed(t, bs[0].init.value, COMMA)))
      && WFBindings(t, bs[1..])
  }

  // ----- Left spines -----

  /** The operand that is read first. */
  function First(x: Tree): (y: Tree)
    ensures !y.TBinary?
  {
    if x.TBinary? then First(x.lhs) else x
  }

  /** The tokens after the first operand. */
  function Tail(x: Tree): seq<Token> {
    if x.TBinary? then Tail(x.lhs) + [Char(x.op)] + Yield(x.rhs) else []
  }

  lemma {:induction false} YieldSplits(x: Tree)
    ensures Yield(x) == Yield(First(x)) + Tail(x)
  {
    if x.TBinary? {
      YieldSplits(x.lhs);
    }
  }

  /** Keywords end every expression. */
  lemma {:induction false} KeywordEnds(t: Table, x: Tree, k: Token)
    requires !k.Char?
    ensures Closed(t, x, k)
  {
    match x
    case TNumber(_) =>
    case TVariable(_) =>
    case TParen(_) =>
    case TVar(_, body) => KeywordEnds(t, body, k);
    case TUnary(_, y) => KeywordEnds(t, y, k);
    case TBinary(_, _, r) => KeywordEnds(t, r, k);
    case TIf(_, _, z) => KeywordEnds(t, z, k);
    case TFor(_, _, _, _, body) => KeywordEnds(t, body, k);
    case TCall(_, _) =>
  }
}
