/**
 The read loop: items are parsed and handled one after another, an operator definition extends the
 precedence table for what follows it, and after a syntax error one token is skipped.
 */
module Frontend {
  import opened Prelude
  import A = Ast
  import M = Machine
  import opened Tokens
  import opened Parsing
  import opened Grammar
  import opened GrammarComplete
  import opened Printer
  import opened Programs

  /** The precedence table, what has been compiled, and the tokens still to be read. */
  datatype World = World(table: Table, session: Session, left: seq<Token>)

  const SEMICOLON := Char(';')

  /** `FunctionAST::codegen` records the precedence of a binary operator unless the function already has a body. */
  function AfterDefine(table: Table, s: Session, d: A.Definition): Table {
    var p := d.proto;
    if p.name in s.gl.mod && s.gl.mod[p.name].code.Some? then table
    else if p.isOperator && |p.params| == 2 && p.name != "" then table[p.name[|p.name| - 1] := p.precedence]
    else table
  }

  function TableAfter(table: Table, s: Session, item: Item): Table {
    if item.Define? then AfterDefine(table, s, item.def) else table
  }

  /** What the next turn of the loop handles, if it parses, and the tokens after it. */
  function NextItem(v: Values, table: Table, left: seq<Token>): (r: (Option<Item>, seq<Token>))
    requires left != []
    ensures |r.1| < |left|
  {
    match Head(left)
    case Def =>
      var r := ParseDefinition(v, table, left);
      if r.Good? then (Some(Define(r.value)), r.rest) else (None, Next(r.rest))
    case Extern =>
      var r := ParseExtern(v, left);
      if r.Good? then (Some(Item.Extern(r.value)), r.rest) else (None, Next(r.rest))
    case _ =>
      if Head(left) == SEMICOLON then (None, Next(left))
      else
        var r := ParseTopLevel(table, left);
        if r.Good? then (Some(Define(r.value)), r.rest) else (None, Next(r.rest))
  }

  function Turn(m: M.Arith, v: Values, w: World): (w': World)
    requires w.left != []
    ensures |w'.left| < |w.left|
  {
    var (item, rest) := NextItem(v, w.table, w.left);
    if item.None? then w.(left := rest)
    else World(TableAfter(w.table, w.session, item.value), Handle(m, w.session, item.value), rest)
  }

  /** `mainLoop`: the state when the tokens are used up, and the items handled on the way. */
  function MainLoop(m: M.Arith, v: Values, w: World): (World, seq<Item>)
    decreases |w.left|
  {
    if w.left == [] then (w, [])
    else
      var (item, _) := NextItem(v, w.table, w.left);
      var (w', items) := MainLoop(m, v, Turn(m, v, w));
      (w', if item.Some? then [item.value] + items else items)
  }

  function TableAfterAll(m: M.Arith, table: Table, s: Session, items: seq<Item>): Table
    decreases |items|
  {
    if items == [] then table
    else TableAfterAll(m, TableAfter(table, s, items[0]), Handle(m, s, items[0]), items[1..])
  }

  /**
   Whatever errors there are in between, the loop reads all tokens and leaves the session and the table
   of the items that parsed, in their order.
   */
  lemma {:induction false} LoopHandlesItems(m: M.Arith, v: Values, w: World)
    ensures var (w', items) := MainLoop(m, v, w);
            && w'.left == [] && w'.session == HandleAll(m, w.session, items)
            && w'.table == TableAfterAll(m, w.table, w.session, items)
    decreases |w.left|
  {
    hide NextItem, Handle, TableAfter;
    if w.left != [] {
      var (item, _) := NextItem(v, w.table, w.left);
      LoopHandlesItems(m, v, Turn(m, v, w));
      var (w', items) := MainLoop(m, v, Turn(m, v, w));
      if item.Some? {
        assert ([item.value] + items)[0] == item.value && ([item.value] + items)[1..] == items;
      }
    }
  }

  // ----- Printing prototypes -----

  /** How precedences are written. */
  ghost predicate Shows(v: Values, show: nat -> string) {
    forall n: nat :: 1 <= n <= 100 ==> v(show(n)) == n as real
  }

  /** The prototypes that have a text: operators carry their symbol in the name and take one or two operands. */
  ghost predicate ProtoPrintable(p: A.Prototype) {
    if !p.isOperator then p.precedence == DEFAULT_PRECEDENCE
    else (IsUnaryName(p) && |p.params| == 1 && p.precedence == DEFAULT_PRECEDENCE)
         || (IsBinaryName(p) && |p.params| == 2 && 1 <= p.precedence <= 100)
  }

  predicate IsUnaryName(p: A.Prototype) { |p.name| == 6 && p.name == A.UnaryName(p.name[5]) && Ascii(p.name[5]) }

  predicate IsBinaryName(p: A.Prototype) { |p.name| == 7 && p.name == A.BinaryName(p.name[6]) && Ascii(p.name[6]) }

  function PrintName(show: nat -> string, p: A.Prototype): seq<Token> {
    if !p.isOperator then [Identifier(p.name)]
    else if IsUnaryName(p) then [Token.Unary, Char(p.name[5])]
    else if IsBinaryName(p) then [Token.Binary, Char(p.name[6]), Number(show(p.precedence))]
    else []
  }

  function PrintParams(params: seq<string>): seq<Token> {
    if params == [] then [CLOSE]
    else if |params| == 1 then [Identifier(params[0]), CLOSE]
    else [Identifier(params[0]), COMMA] + PrintParams(params[1..])
  }

  function PrintProto(show: nat -> string, p: A.Prototype): seq<Token> {
    PrintName(show, p) + [OPEN] + PrintParams(p.params)
  }

  lemma NameParsed(v: Values, show: nat -> string, p: A.Prototype, rest: seq<Token>)
    requires ProtoPrintable(p) && Shows(v, show) && !Head(rest).Number?
    ensures ParseName(v, PrintName(show, p) + rest)
            == Good(Name(p.name, if p.isOperator then Some(|p.params|) else None, p.precedence), rest)
  {
    hide ParseName;
    var s := PrintName(show, p) + rest;
    if !p.isOperator {
      PlainParsed(v, p.name, rest);
    } else if IsUnaryName(p) {
      UnaryParsed(v, p.name[5], rest);
      assert s == [Token.Unary] + ([Char(p.name[5])] + rest);
    } else {
      BinaryParsed(v, p.name[6], show(p.precedence), p.precedence, rest);
      assert s == [Token.Binary] + ([Char(p.name[6])] + ([Number(show(p.precedence))] + rest));
    }
  }

  lemma PlainParsed(v: Values, name: string, rest: seq<Token>)
    ensures ParseName(v, [Identifier(name)] + rest) == Good(Name(name, None, DEFAULT_PRECEDENCE), rest)
  {
    HeadNext(Identifier(name), rest);
  }

  lemma UnaryParsed(v: Values, c: char, rest: seq<Token>)
    requires Ascii(c)
    ensures ParseName(v, [Token.Unary] + ([Char(c)] + rest))
            == Good(Name(A.UnaryName(c), Some(1), DEFAULT_PRECEDENCE), rest)
  {
    HeadNext(Token.Unary, [Char(c)] + rest);
    HeadNext(Char(c), rest);
  }

  lemma BinaryParsed(v: Values, c: char, text: string, n: nat, rest: seq<Token>)
    requires Ascii(c) && v(text) == n as real && 1 <= n <= 100
    ensures ParseName(v, [Token.Binary] + ([Char(c)] + ([Number(text)] + rest)))
            == Good(Name(A.BinaryName(c), Some(2), n), rest)
  {
    HeadNext(Token.Binary, [Char(c)] + ([Number(text)] + rest));
    HeadNext(Char(c), [Number(text)] + rest);
    HeadNext(Number(text), rest);
    assert (n as real).Floor == n;
  }

  lemma {:induction false} ParamsParsed(params: seq<string>, rest: seq<Token>)
    ensures ParseParams(PrintParams(params) + rest) == Good(params, rest)
  {
    hide ParseParams;
    PrintedParams(params, rest);
    hide PrintParams;
    if params == [] {
      NoParams(rest);
    } else if |params| == 1 {
      LastParam(params[0], rest);
      assert [params[0]] == params;
    } else {
      ParamsParsed(params[1..], rest);
      MoreParams(params[0], params[1..], PrintParams(params[1..]) + rest, rest);
      assert [params[0]] + params[1..] == params;
    }
  }

  lemma PrintedParams(params: seq<string>, rest: seq<Token>)
    ensures PrintParams(params) + rest
            == if params == [] then [CLOSE] + rest
               else if |params| == 1 then [Identifier(params[0])] + ([CLOSE] + rest)
               else [Identifier(params[0])] + ([COMMA] + (PrintParams(params[1..]) + rest))
  {
    if |params| > 1 {
      TwoInFront(Identifier(params[0]), COMMA, PrintParams(params[1..]), rest);
    } else if |params| == 1 {
      TwoInFront(Identifier(params[0]), CLOSE, [], rest);
    }
  }

  lemma TwoInFront(x: Token, y: Token, more: seq<Token>, rest: seq<Token>)
    ensures ([x, y] + more) + rest == [x] + ([y] + (more + rest))
    ensures [x, y] + rest == [x] + ([y] + rest)
  {
  }

  lemma NoParams(rest: seq<Token>)
    ensures ParseParams([CLOSE] + rest) == Good([], rest)
  {
    HeadNext(CLOSE, rest);
  }

  lemma LastParam(x: string, rest: seq<Token>)
    ensures ParseParams([Identifier(x)] + ([CLOSE] + rest)) == Good([x], rest)
  {
    HeadNext(Identifier(x), [CLOSE] + rest);
    HeadNext(CLOSE, rest);
  }

  lemma MoreParams(x: string, xs: seq<string>, s: seq<Token>, rest: seq<Token>)
    requires ParseParams(s) == Good(xs, rest)
    ensures ParseParams([Identifier(x)] + ([COMMA] + s)) == Good([x] + xs, rest)
  {
    HeadNext(Identifier(x), [COMMA] + s);
    HeadNext(COMMA, s);
  }

  /** A printed prototype is read back. */
  lemma ProtoRoundTrip(v: Values, show: nat -> string, p: A.Prototype, rest: seq<Token>)
    requires ProtoPrintable(p) && Shows(v, show)
    ensures ParsePrototype(v, PrintProto(show, p) + rest) == Good(p, rest)
  {
    hide ParseName, PrintName, ParseParams, PrintParams;
    var more := PrintParams(p.params) + rest;
    assert PrintProto(show, p) + rest == PrintName(show, p) + ([OPEN] + more);
    HeadNext(OPEN, more);
    NameParsed(v, show, p, [OPEN] + more);
    ParamsParsed(p.params, rest);
  }

  // ----- Whole programs -----

  function PrintItem(show: nat -> string, table: Table, item: Item): seq<Token> {
    match item
    case Extern(p) => [Token.Extern] + PrintProto(show, p)
    case Define(d) =>
      if d.proto == ANONYMOUS then Print(table, d.body, SEMICOLON)
      else [Token.Def] + PrintProto(show, d.proto) + Print(table, d.body, SEMICOLON)
  }

  /** An item that has a text under `table`; one that starts with `;` would be taken for a separator. */
  ghost predicate ItemPrintable(show: nat -> string, table: Table, item: Item) {
    && TableOk(table) && Prec(table, SEMICOLON) < 0
    && match item
       case Extern(p) => ProtoPrintable(p)
       case Define(d) =>
         && Printable(table, d.body)
         && if d.proto == ANONYMOUS then Print(table, d.body, SEMICOLON)[0] != SEMICOLON else ProtoPrintable(d.proto)
  }

  /** Each item is printed under the table that the items before it have left. */
  function PrintProgram(m: M.Arith, show: nat -> string, table: Table, s: Session, items: seq<Item>): seq<Token>
    decreases |items|
  {
    if items == [] then []
    else PrintItem(show, table, items[0])
         + ([SEMICOLON] + PrintProgram(m, show, TableAfter(table, s, items[0]), Handle(m, s, items[0]), items[1..]))
  }

  ghost predicate ProgramPrintable(m: M.Arith, show: nat -> string, table: Table, s: Session, items: seq<Item>)
    decreases |items|
  {
    items != [] ==>
      && ItemPrintable(show, table, items[0])
      && ProgramPrintable(m, show, TableAfter(table, s, items[0]), Handle(m, s, items[0]), items[1..])
  }

  lemma ItemParsed(v: Values, show: nat -> string, table: Table, item: Item, rest: seq<Token>)
    requires Shows(v, show) && ItemPrintable(show, table, item) && Head(rest) == SEMICOLON
    ensures PrintItem(show, table, item) + rest != []
    ensures NextItem(v, table, PrintItem(show, table, item) + rest) == (Some(item), rest)
  {
    hide NextItem, PrintProto, Print, Printable, ProtoPrintable;
    match item
    case Extern(p) =>
      assert PrintItem(show, table, item) + rest == [Token.Extern] + (PrintProto(show, p) + rest);
      ExternParsed(v, show, table, p, rest);
    case Define(d) =>
      if d.proto == ANONYMOUS {
        TopLevelParsed(v, table, d.body, rest);
      } else {
        assert PrintItem(show, table, item) + rest
            == [Token.Def] + (PrintProto(show, d.proto) + (Print(table, d.body, SEMICOLON) + rest));
        DefParsed(v, show, table, d, rest);
      }
  }

  lemma ExternParsed(v: Values, show: nat -> string, table: Table, p: A.Prototype, rest: seq<Token>)
    requires Shows(v, show) && ProtoPrintable(p)
    ensures NextItem(v, table, [Token.Extern] + (PrintProto(show, p) + rest)) == (Some(Item.Extern(p)), rest)
  {
    hide ParsePrototype, PrintProto, ProtoPrintable, ParseDefinition, ParseTopLevel;
    HeadNext(Token.Extern, PrintProto(show, p) + rest);
    ProtoRoundTrip(v, show, p, rest);
  }

  lemma DefParsed(v: Values, show: nat -> string, table: Table, d: A.Definition, rest: seq<Token>)
    requires Shows(v, show) && ProtoPrintable(d.proto) && TableOk(table) && Printable(table, d.body)
    requires Prec(table, SEMICOLON) < 0 && Head(rest) == SEMICOLON
    ensures NextItem(v, table, [Token.Def] + (PrintProto(show, d.proto) + (Print(table, d.body, SEMICOLON) + rest)))
            == (Some(Define(d)), rest)
  {
    hide ParsePrototype, ParseExpression, PrintProto, Print, Printable, ProtoPrintable, ParseExtern, ParseTopLevel;
    var more := Print(table, d.body, SEMICOLON) + rest;
    RoundTrip(table, d.body, rest);
    HeadNext(Token.Def, PrintProto(show, d.proto) + more);
    ProtoRoundTrip(v, show, d.proto, more);
  }

  lemma TopLevelParsed(v: Values, table: Table, e: A.Expr, rest: seq<Token>)
    requires TableOk(table) && Printable(table, e) && Prec(table, SEMICOLON) < 0 && Head(rest) == SEMICOLON
    requires Print(table, e, SEMICOLON) != [] ==> Print(table, e, SEMICOLON)[0] != SEMICOLON
    ensures Print(table, e, SEMICOLON) + rest != []
    ensures NextItem(v, table, Print(table, e, SEMICOLON) + rest) == (Some(Define(A.Definition(ANONYMOUS, e))), rest)
  {
    hide ParseExpression, Print, Printable, ParseExtern, ParseDefinition;
    RoundTrip(table, e, rest);
    StartsExpression(table, e);
    assert Head(Print(table, e, SEMICOLON) + rest) == Print(table, e, SEMICOLON)[0];
  }

  /** No expression starts with `def` or `extern`. */
  lemma StartsExpression(t: Table, e: A.Expr)
    ensures var s := Print(t, e, SEMICOLON); s != [] && s[0] != Token.Def && s[0] != Token.Extern
  {
    FirstToken(Build(t, e, Some(0), SEMICOLON));
  }

  lemma {:induction false} FirstToken(x: Tree)
    ensures Yield(x)[0] != Token.Def && Yield(x)[0] != Token.Extern
  {
    if x.TBinary? {
      FirstToken(x.lhs);
    }
  }

  /** A printed program is handled item by item, exactly as the list of its items is. */
  lemma {:induction false} ProgramRoundTrip(m: M.Arith, v: Values, show: nat -> string, table: Table, s: Session,
                                            items: seq<Item>)
    requires Shows(v, show) && ProgramPrintable(m, show, table, s, items)
    ensures var (w, handled) := MainLoop(m, v, World(table, s, PrintProgram(m, show, table, s, items)));
            handled == items && w == World(TableAfterAll(m, table, s, items), HandleAll(m, s, items), [])
    decreases |items|
  {
    hide NextItem, Handle, TableAfter, PrintItem, ItemPrintable;
    if items != [] {
      var table1, s1 := TableAfter(table, s, items[0]), Handle(m, s, items[0]);
      var more := PrintProgram(m, show, table1, s1, items[1..]);
      HeadNext(SEMICOLON, more);
      ItemParsed(v, show, table, items[0], [SEMICOLON] + more);
      Separator(m, v, World(table1, s1, [SEMICOLON] + more));
      ProgramRoundTrip(m, v, show, table1, s1, items[1..]);
      assert [items[0]] + items[1..] == items;
    }
  }

  lemma Separator(m: M.Arith, v: Values, w: World)
    requires w.left != [] && Head(w.left) == SEMICOLON
    ensures MainLoop(m, v, w) == MainLoop(m, v, w.(left := Next(w.left)))
  {
    hide ParseTopLevel, ParseDefinition, ParseExtern;
    assert NextItem(v, w.table, w.left) == (None, Next(w.left));
  }
}
