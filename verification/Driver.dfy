/** The driver as it runs, without a JIT: a parser, a code generator and the loop over the input. */
module Driver {
  import opened Prelude
  import A = Ast
  import M = Machine
  import C = Codegen
  import S = Semantics
  import opened Tokens
  import opened Lexing
  import opened Parsing
  import opened Descent
  import opened Generator
  import opened Programs
  import opened Frontend

  class Loop {
    const parser: Parser
    const builder: Builder
    /** The definitions accepted so far, for reasoning only. */
    ghost var program: S.Program
    /** The items handled so far. */
    ghost var handled: seq<Item>

    constructor (m: M.Arith, text: string, value: Values, binopPrecedence: Table)
      ensures Valid() && fresh(parser) && fresh(parser.lexer) && fresh(builder) && builder.m == m
              && parser.value == value
      ensures Next(Now().left) == Lex(text) && Now().table == binopPrecedence && Now().session == EMPTY && handled == []
    {
      parser := new Parser(text, value, binopPrecedence);
      builder := new Builder(m);
      program, handled := map[], [];
    }

    ghost predicate Valid()
      reads parser, parser.lexer
    {
      parser.Valid()
    }

    ghost function Now(): (w: World)
      reads this, parser, parser.lexer, builder
      ensures Head(w.left) == parser.currentToken
    {
      World(parser.binopPrecedence, Session(C.Globals(builder.mod, builder.protos), program), parser.Left())
    }

    /** `FunctionAST::codegen`: the precedence of a binary operator is recorded before its body is generated. */
    method Generate(d: A.Definition) returns (r: Result<M.Fn, C.CodegenError>)
      requires Valid()
      modifies this, parser`binopPrecedence, builder
      ensures Valid() && parser.Left() == old(parser.Left()) && handled == old(handled) + [Define(d)]
      ensures Now().session == Handle(builder.m, old(Now().session), Define(d))
      ensures Now().table == AfterDefine(old(Now().table), old(Now().session), d)
    {
      hide C.GenDefinition;
      var name := d.proto.name;
      var redefined := name in builder.mod && builder.mod[name].code.Some?;
      if !redefined && d.proto.isOperator && |d.proto.params| == 2 && name != "" {
        parser.binopPrecedence := parser.binopPrecedence[name[|name| - 1] := d.proto.precedence];
      }
      r := builder.CodegenDefinition(d);
      if r.Ok? {
        program := program[name := S.Source(r.value.params, d.body)];
      }
      handled := handled + [Define(d)];
    }

    /** One turn of the loop, for `def`, `extern` or an expression: the state and what has been handled. */
    ghost predicate Turned(before: World, handledBefore: seq<Item>)
      requires before.left != []
      reads this, parser, parser.lexer, builder
    {
      var (item, _) := NextItem(parser.value, before.table, before.left);
      && Valid() && Now() == Turn(builder.m, parser.value, before)
      && handled == if item.Some? then handledBefore + [item.value] else handledBefore
    }

    method HandleDefinition()
      requires Valid() && parser.currentToken == Def
      modifies this, parser`currentToken, parser`binopPrecedence, parser.lexer, builder
      ensures Turned(old(Now()), old(handled))
    {
      hide Handle, ParseDefinition, AfterDefine;
      var ast := parser.ParseDef();
      if ast.Err? {
        parser.GetNextToken();
      } else {
        var ir := Generate(ast.value);
      }
    }

    method HandleExtern()
      requires Valid() && parser.currentToken == Token.Extern
      modifies this, parser`currentToken, parser.lexer, builder
      ensures Turned(old(Now()), old(handled))
    {
      hide ParseExtern, ParseDefinition, ParseTopLevel, C.Declare, C.GenDefinition, AfterDefine;
      var ast := parser.ParseExternDecl();
      if ast.Err? {
        parser.GetNextToken();
      } else {
        builder.CodegenPrototype(ast.value);
        builder.protos := builder.protos[ast.value.name := ast.value];
        handled := handled + [Item.Extern(ast.value)];
      }
    }

    method HandleTopLevelExpression()
      requires Valid() && parser.currentToken !in {Eof, SEMICOLON, Def, Token.Extern}
      modifies this, parser`currentToken, parser`binopPrecedence, parser.lexer, builder
      ensures Turned(old(Now()), old(handled))
    {
      hide Handle, ParseTopLevel, AfterDefine;
      var ast := parser.ParseTopLevelExpr();
      if ast.Err? {
        parser.GetNextToken();
      } else {
        var ir := Generate(ast.value);
      }
    }

    /** The whole input is read; the session and the table are those of the items that parsed. */
    method Run()
      requires Valid() && handled == []
      modifies this, parser`currentToken, parser`binopPrecedence, parser.lexer, builder
      ensures Valid()
      ensures var w := old(Now()); (Now(), handled) == MainLoop(builder.m, parser.value, w.(left := Next(w.left)))
    {
      hide Turn, NextItem;
      parser.GetNextToken();
      ghost var start := Now();
      assert [] + MainLoop(builder.m, parser.value, start).1 == MainLoop(builder.m, parser.value, start).1;
      while parser.currentToken != Eof
        invariant Valid()
        invariant Continued(handled, MainLoop(builder.m, parser.value, Now()))
                  == MainLoop(builder.m, parser.value, start)
        decreases |Now().left|
      {
        ghost var before, done := Now(), handled;
        LoopStep(builder.m, parser.value, before, done);
        if parser.currentToken == SEMICOLON {
          parser.GetNextToken();
          SkipTurn(builder.m, parser.value, before);
        } else if parser.currentToken == Def {
          HandleDefinition();
        } else if parser.currentToken == Token.Extern {
          HandleExtern();
        } else {
          HandleTopLevelExpression();
        }
      }
      assert handled + [] == handled;
    }
  }

  function Continued(done: seq<Item>, r: (World, seq<Item>)): (World, seq<Item>) { (r.0, done + r.1) }

  lemma LoopStep(m: M.Arith, v: Values, w: World, done: seq<Item>)
    requires w.left != []
    ensures var (item, _) := NextItem(v, w.table, w.left);
            var more := if item.Some? then done + [item.value] else done;
            Continued(more, MainLoop(m, v, Turn(m, v, w))) == Continued(done, MainLoop(m, v, w))
  {
    hide NextItem, Turn;
    var (item, _) := NextItem(v, w.table, w.left);
    if item.Some? {
      var items := MainLoop(m, v, Turn(m, v, w)).1;
      assert done + [item.value] + items == done + ([item.value] + items);
    }
  }

  lemma SkipTurn(m: M.Arith, v: Values, w: World)
    requires w.left != [] && Head(w.left) == SEMICOLON
    ensures NextItem(v, w.table, w.left) == (None, Next(w.left)) && Turn(m, v, w) == w.(left := Next(w.left))
  {
    hide ParseTopLevel, ParseDefinition, ParseExtern;
  }
}
