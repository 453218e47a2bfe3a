/** What the tokeniser guarantees about operators and names, and why parsing keeps it. */
module Symbols {
  import opened Prelude
  import A = Ast
  import M = Machine
  import opened Tokens
  import opened Lexing
  import opened Parsing
  import opened Reading
  import opened Grammar
  import opened GrammarSound
  import opened Programs
  import opened Frontend

  /** Single characters are symbols; names have none. */
  predicate Apart(k: Token) {
    (k.Char? ==> A.Symbol(k.c)) && (k.Identifier? ==> forall i :: 0 <= i < |k.name| ==> !A.Symbol(k.name[i]))
  }

  predicate AllApart(s: seq<Token>) { forall i :: 0 <= i < |s| ==> Apart(s[i]) }

  lemma SpellableApart(k: Token)
    requires Spellable(k)
    ensures Apart(k)
  {
    if k.Identifier? {
      assert forall i :: 0 <= i < |k.name| ==> Alnum(k.name[i]);
    }
  }

  lemma {:induction false} LayoutApart(l: Layout)
    requires LayoutOk(l)
    ensures AllApart(TokensOf(l))
    decreases |l.pieces|
  {
    hide Spellable, Apart, Render, AllOk;
    if l.pieces != [] {
      SpellableApart(l.pieces[0].tok);
      LayoutApart(l.(pieces := l.pieces[1..]));
    }
  }

  lemma LexedApart(text: string)
    ensures AllApart(Lex(text))
  {
    hide Lex, AllApart, LayoutOk, TokensOf, Render;
    var l := LayoutFor(text);
    LexRender(l);
    LayoutApart(l);
  }

  // ----- Trees -----

  lemma Both(p: seq<Token>, q: seq<Token>)
    requires AllApart(p + q)
    ensures AllApart(p) && AllApart(q)
  {
    forall i | 0 <= i < |p|
      ensures Apart(p[i])
    {
      assert (p + q)[i] == p[i];
    }
    forall i | 0 <= i < |q|
      ensures Apart(q[i])
    {
      assert (p + q)[|p| + i] == q[i];
    }
  }

  lemma Three(p: seq<Token>, q: seq<Token>, r: seq<Token>)
    requires AllApart(p + q + r)
    ensures AllApart(p) && AllApart(q) && AllApart(r)
  {
    hide AllApart;
    Both(p + q, r);
    Both(p, q);
  }

  lemma IfParts(c: seq<Token>, y: seq<Token>, z: seq<Token>)
    requires AllApart([Token.If] + c + [Token.Then] + y + [Token.Else] + z)
    ensures AllApart(c) && AllApart(y) && AllApart(z)
  {
    hide AllApart;
    Three([Token.If] + c + [Token.Then] + y, [Token.Else], z);
    Three([Token.If] + c, [Token.Then], y);
    Both([Token.If], c);
  }

  lemma ForParts(n: string, start: seq<Token>, end: seq<Token>, step: seq<Token>, body: seq<Token>)
    requires AllApart([Token.For, Identifier(n), EQUALS] + start + [COMMA] + end + step + [Token.In] + body)
    ensures AllApart(start) && AllApart(end) && AllApart(step) && AllApart(body)
  {
    hide AllApart;
    var first := [Token.For, Identifier(n), EQUALS] + start;
    Three(first + [COMMA] + end + step, [Token.In], body);
    Both(first + [COMMA] + end, step);
    Three(first, [COMMA], end);
    Both([Token.For, Identifier(n), EQUALS], start);
  }

  lemma {:induction false} TreeSymbols(x: Tree)
    requires AllApart(Yield(x))
    ensures A.SymbolOps(Strip(x))
    decreases x, 1
  {
    hide YieldArgs, YieldBindings, YieldAfter, StripAll, StripBindings, StripOption, AllApart, Apart, A.Symbol;
    match x
    case TNumber(_) =>
    case TVariable(_) =>
    case TParen(y) =>
      Three([OPEN], Yield(y), [CLOSE]);
      TreeSymbols(y);
    case TVar(bs, body) =>
      Both([Token.Var] + YieldBindings(bs) + [Token.In], Yield(body));
      Three([Token.Var], YieldBindings(bs), [Token.In]);
      TreeSymbols(body);
      BindingsSymbols(bs);
    case TUnary(op, y) =>
      Both([Char(op)], Yield(y));
      OperatorApart(op);
      TreeSymbols(y);
    case TBinary(op, l, r) =>
      Three(Yield(l), [Char(op)], Yield(r));
      OperatorApart(op);
      TreeSymbols(l);
      TreeSymbols(r);
    case TIf(_, _, _) => IfSymbols(x);
    case TFor(_, _, _, _, _) => ForSymbols(x);
    case TCall(f, args) =>
      Three([Identifier(f), OPEN], YieldArgs(args), [CLOSE]);
      ArgsSymbols(args);
  }

  lemma {:induction false} IfSymbols(x: Tree)
    requires x.TIf? && AllApart(Yield(x))
    ensures A.SymbolOps(Strip(x))
    decreases x, 0
  {
    hide AllApart;
    IfParts(Yield(x.cond), Yield(x.thn), Yield(x.els));
    TreeSymbols(x.cond);
    TreeSymbols(x.thn);
    TreeSymbols(x.els);
  }

  lemma {:induction false} ForSymbols(x: Tree)
    requires x.TFor? && AllApart(Yield(x))
    ensures A.SymbolOps(Strip(x))
    decreases x, 0
  {
    hide AllApart, YieldAfter, StripOption;
    ForParts(x.name, Yield(x.start), Yield(x.end), YieldAfter(COMMA, x.step), Yield(x.body));
    TreeSymbols(x.start);
    TreeSymbols(x.end);
    OptionSymbols(COMMA, x.step);
    TreeSymbols(x.body);
  }

  lemma OperatorApart(op: char)
    requires AllApart([Char(op)])
    ensures A.Symbol(op)
  {
    assert Apart([Char(op)][0]);
  }

  lemma {:induction false} OptionSymbols(k: Token, x: Option<Tree>)
    requires AllApart(YieldAfter(k, x))
    ensures StripOption(x).Some? ==> A.SymbolOps(StripOption(x).value)
    decreases x, 0
  {
    hide Yield, Strip;
    if x.Some? {
      Both([k], Yield(x.value));
      TreeSymbols(x.value);
    }
  }

  lemma {:induction false} ArgsSymbols(xs: seq<Tree>)
    requires AllApart(YieldArgs(xs))
    ensures forall i :: 0 <= i < |xs| ==> A.SymbolOps(StripAll(xs)[i])
    decreases xs, 0
  {
    hide Yield, Strip, AllApart;
    if xs != [] {
      if |xs| > 1 {
        Three(Yield(xs[0]), [COMMA], YieldArgs(xs[1..]));
        ArgsSymbols(xs[1..]);
      }
      TreeSymbols(xs[0]);
    }
  }

  lemma {:induction false} BindingsSymbols(bs: seq<TreeBinding>)
    requires AllApart(YieldBindings(bs))
    ensures forall i :: 0 <= i < |bs| && StripBindings(bs)[i].init.Some?
              ==> A.SymbolOps(StripBindings(bs)[i].init.value)
    decreases bs, 0
  {
    hide YieldAfter, StripOption, AllApart;
    if bs != [] {
      var first := [Identifier(bs[0].name)] + YieldAfter(EQUALS, bs[0].init);
      if |bs| > 1 {
        Three(first, [COMMA], YieldBindings(bs[1..]));
        BindingsSymbols(bs[1..]);
      }
      Both([Identifier(bs[0].name)], YieldAfter(EQUALS, bs[0].init));
      OptionSymbols(EQUALS, bs[0].init);
    }
  }

  // ----- Items -----

  lemma RestApart(rest: seq<Token>, s: seq<Token>)
    requires AllApart(s) && Remains(rest, s)
    ensures AllApart(rest) && AllApart(Next(rest))
  {
  }

  lemma ExpressionSymbols(t: Table, s: seq<Token>)
    requires AllApart(s) && ParseExpression(t, s).Good?
    ensures A.SymbolOps(ParseExpression(t, s).value)
  {
    hide ParseExpression, WF, Edge, Strip, Yield, AllApart;
    var x := ExpressionSound(t, s);
    Both(Yield(x), ParseExpression(t, s).rest);
    TreeSymbols(x);
  }

  lemma PrototypePlain(v: Values, s: seq<Token>)
    requires AllApart(s) && ParsePrototype(v, s).Good?
    ensures ProtoPlain(ParsePrototype(v, s).value)
  {
    hide ParseParams;
    var p := ParsePrototype(v, s).value;
    var name := ParseName(v, s).value;
    forall op: char | A.Symbol(op)
      ensures (p.name == A.UnaryName(op) ==> |p.params| == 1) && (p.name == A.BinaryName(op) ==> |p.params| == 2)
    {
      assert A.UnaryName(op)[5] == op && A.BinaryName(op)[6] == op;
      if Head(s).Identifier? {
        assert Apart(s[0]);
      }
    }
  }

  lemma AnonymousPlain()
    ensures ProtoPlain(ANONYMOUS)
  {
    forall op: char
      ensures ANONYMOUS.name != A.UnaryName(op) && ANONYMOUS.name != A.BinaryName(op)
    {
      assert |ANONYMOUS.name| == 11 && |A.UnaryName(op)| == 6 && |A.BinaryName(op)| == 7;
    }
  }

  ghost predicate ItemSymbols(item: Item) {
    ProtoPlain(ProtoOf(item)) && (item.Define? ==> A.SymbolOps(item.def.body))
  }

  lemma NextItemSymbols(v: Values, table: Table, left: seq<Token>)
    requires AllApart(left) && left != []
    ensures var (item, rest) := NextItem(v, table, left);
            AllApart(rest) && (item.Some? ==> ItemSymbols(item.value) == true)
  {
    hide ParsePrototype, ParseExpression, AllApart, ProtoPlain, Remains;
    Same(left);
    RestApart(Next(left), left);
    if Head(left) == Token.Def {
      DefinitionRemains(v, table, left);
      RestApart(ParseDefinition(v, table, left).rest, left);
      PrototypeRemains(v, Next(left));
      var u := ParsePrototype(v, Next(left));
      RestApart(u.rest, Next(left));
      if u.Good? && ParseExpression(table, u.rest).Good? {
        PrototypePlain(v, Next(left));
        ExpressionSymbols(table, u.rest);
      }
    } else if Head(left) == Token.Extern {
      PrototypeRemains(v, Next(left));
      RestApart(ParsePrototype(v, Next(left)).rest, Next(left));
      if ParsePrototype(v, Next(left)).Good? {
        PrototypePlain(v, Next(left));
      }
    } else {
      ExpressionRemains(table, left);
      RestApart(ParseExpression(table, left).rest, left);
      AnonymousPlain();
      if ParseExpression(table, left).Good? {
        ExpressionSymbols(table, left);
      }
    }
  }

  ghost predicate AllSymbols(items: seq<Item>) { forall i :: 0 <= i < |items| ==> ItemSymbols(items[i]) == true }

  lemma OneMore(item: Item, items: seq<Item>)
    requires ItemSymbols(item) && AllSymbols(items)
    ensures AllSymbols([item] + items)
  {
    hide ItemSymbols;
  }

  /** Everything the loop handles has symbols for operators, and operators under operators' names only. */
  lemma {:induction false} LoopSymbols(m: M.Arith, v: Values, w: World)
    requires AllApart(w.left)
    ensures AllSymbols(MainLoop(m, v, w).1) == true
    decreases |w.left|
  {
    hide NextItem, Handle, AllApart, ItemSymbols;
    if w.left != [] {
      hide AllSymbols;
      NextItemSymbols(v, w.table, w.left);
      var (item, rest) := NextItem(v, w.table, w.left);
      assert Turn(m, v, w).left == rest;
      LoopSymbols(m, v, Turn(m, v, w));
      if item.Some? {
        OneMore(item.value, MainLoop(m, v, Turn(m, v, w)).1);
      }
    }
  }
}
