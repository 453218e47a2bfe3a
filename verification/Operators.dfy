/**
 What a definition of an operator changes about reading: which prototypes are accepted and with which
 precedence, what the table holds after a turn of the loop, and how the tokens that follow are read.
 */
module Operators {
  import opened Prelude
  import A = Ast
  import M = Machine
  import opened Tokens
  import opened Parsing
  import opened GrammarComplete
  import opened Offending
  import opened Printer
  import opened Reading
  import opened Programs
  import F = Frontend
  import opened Frontend

  // ----- Which tokens are a prototype -----

  /** A number that may follow a binary operator, and the precedence it gives. */
  ghost predicate GivesPrecedence(v: Values, k: Token, n: nat) {
    k.Number? && 1.0 <= v(k.text) <= 100.0 && n as real <= v(k.text) < (n + 1) as real
  }

  /** A plain name, `unary c`, `binary c` for precedence 30, or `binary c` with a number. */
  ghost predicate SpellsName(v: Values, s: seq<Token>, p: A.Prototype) {
    if !p.isOperator then s == [Identifier(p.name)] && p.precedence == 30
    else if s != [] && s[0] == Token.Unary then
      |s| == 2 && s[1].Char? && Ascii(s[1].c) && p.name == "unary" + [s[1].c] && |p.params| == 1 && p.precedence == 30
    else
      && 2 <= |s| <= 3 && s[0] == Token.Binary && s[1].Char? && Ascii(s[1].c)
      && p.name == "binary" + [s[1].c] && |p.params| == 2
      && if |s| == 2 then p.precedence == 30 else GivesPrecedence(v, s[2], p.precedence)
  }

  /** Names separated by commas, one of which may come last, and the closing parenthesis. */
  ghost predicate SpellsParams(s: seq<Token>, params: seq<string>) {
    if params == [] then s == [CLOSE]
    else
      && |s| >= 2 && s[0] == Identifier(params[0])
      && ((s[1] == CLOSE && |s| == 2 && |params| == 1) || (s[1] == COMMA && SpellsParams(s[2..], params[1..])))
  }

  ghost predicate SpellsPrototype(v: Values, s: seq<Token>, p: A.Prototype) {
    exists i :: 0 <= i < |s| && SpellsAt(v, s, p, i)
  }

  ghost predicate SpellsAt(v: Values, s: seq<Token>, p: A.Prototype, i: nat)
    requires i < |s|
  {
    s[i] == OPEN && SpellsName(v, s[..i], p) && SpellsParams(s[i + 1..], p.params)
  }

  function NameOf(p: A.Prototype): Name { Name(p.name, if p.isOperator then Some(|p.params|) else None, p.precedence) }

  lemma FloorIs(r: real, n: nat)
    requires n as real <= r < (n + 1) as real
    ensures r.Floor == n
  {
  }

  lemma NameSpelled(v: Values, s: seq<Token>, p: A.Prototype, rest: seq<Token>)
    requires SpellsName(v, s, p) && Head(rest) == OPEN
    ensures ParseName(v, s + rest) == Good(NameOf(p), rest)
  {
    hide ParseName, GivesPrecedence;
    if !p.isOperator {
      PlainParsed(v, p.name, rest);
    } else {
      assert s + rest == [s[0]] + ([s[1]] + (s[2..] + rest));
      if s[0] == Token.Unary {
        assert s[2..] + rest == rest;
        F.UnaryParsed(v, s[1].c, rest);
      } else if |s| == 2 {
        assert s[2..] + rest == rest;
        NoNumber(v, s[1].c, rest);
      } else {
        assert s[2..] + rest == [s[2]] + rest;
        WithNumber(v, s[1].c, s[2], p.precedence, rest);
      }
    }
  }

  lemma NoNumber(v: Values, c: char, rest: seq<Token>)
    requires Ascii(c) && Head(rest) == OPEN
    ensures ParseName(v, [Token.Binary] + ([Char(c)] + rest)) == Good(Name("binary" + [c], Some(2), 30), rest)
  {
    HeadNext(Token.Binary, [Char(c)] + rest);
    HeadNext(Char(c), rest);
  }

  lemma WithNumber(v: Values, c: char, k: Token, n: nat, rest: seq<Token>)
    requires Ascii(c) && GivesPrecedence(v, k, n)
    ensures ParseName(v, [Token.Binary] + ([Char(c)] + ([k] + rest))) == Good(Name("binary" + [c], Some(2), n), rest)
  {
    HeadNext(Token.Binary, [Char(c)] + ([k] + rest));
    HeadNext(Char(c), [k] + rest);
    HeadNext(k, rest);
    FloorIs(v(k.text), n);
  }

  lemma {:induction false} ParamsSpelled(s: seq<Token>, params: seq<string>, rest: seq<Token>)
    requires SpellsParams(s, params)
    ensures ParseParams(s + rest) == Good(params, rest)
    decreases |params|
  {
    hide ParseParams;
    if params == [] {
      NoParams(rest);
    } else {
      assert s + rest == [s[0]] + ([s[1]] + (s[2..] + rest));
      if |s| == 2 && s[1] == CLOSE {
        assert s[2..] + rest == rest && params == [params[0]];
        LastParam(params[0], rest);
      } else {
        ParamsSpelled(s[2..], params[1..], rest);
        assert params == [params[0]] + params[1..];
        MoreParams(params[0], params[1..], s[2..] + rest, rest);
      }
    }
  }

  /** What was read for the name spells it, whatever the prototype turns out to take. */
  lemma NameRead(v: Values, s: seq<Token>, p: A.Prototype)
    requires ParseName(v, s).Good? && ParseName(v, s).value == NameOf(p)
    requires p.isOperator ==> |p.params| == ParseName(v, s).value.arity.value
    ensures var rest := ParseName(v, s).rest;
            Remains(rest, s) && SpellsName(v, s[..|s| - |rest|], p)
  {
    var rest := ParseName(v, s).rest;
    var used := s[..|s| - |rest|];
    match Head(s)
    case Identifier(_) =>
      assert used == [s[0]];
    case Unary =>
      assert used == [s[0], s[1]];
    case Binary =>
      if |used| == 3 {
        assert used == [s[0], s[1], s[2]];
      } else {
        assert used == [s[0], s[1]];
      }
    case _ =>
  }

  lemma {:induction false} ParamsRead(s: seq<Token>)
    requires ParseParams(s).Good?
    ensures var r := ParseParams(s); Remains(r.rest, s) && SpellsParams(s[..|s| - |r.rest|], r.value)
    decreases |s|
  {
    var r := ParseParams(s);
    var used := s[..|s| - |r.rest|];
    if Head(s).Identifier? && Head(Next(s)) == COMMA {
      ParamsRead(s[2..]);
      assert r == Good([s[0].name] + ParseParams(s[2..]).value, ParseParams(s[2..]).rest);
      hide ParseParams;
      assert used[2..] == s[2..][..|s[2..]| - |r.rest|];
      assert r.value[1..] == ParseParams(s[2..]).value;
    } else if Head(s).Identifier? {
      assert used == [s[0], s[1]];
    } else {
      assert used == [s[0]];
    }
  }

  /** The tokens used up are those in front of what is left. */
  ghost predicate UsedFor(v: Values, s: seq<Token>, p: A.Prototype, rest: seq<Token>) {
    Remains(rest, s) && SpellsPrototype(v, s[..|s| - |rest|], p)
  }

  /** A prototype is accepted exactly when tokens in front spell it, and what follows them is left. */
  lemma PrototypeAcceptsIff(v: Values, s: seq<Token>, p: A.Prototype, rest: seq<Token>)
    ensures ParsePrototype(v, s) == Good(p, rest) <==> UsedFor(v, s, p, rest)
  {
    hide ParsePrototype, SpellsPrototype;
    if ParsePrototype(v, s) == Good(p, rest) {
      PrototypeSound(v, s, p, rest);
    }
    if UsedFor(v, s, p, rest) {
      PrototypeComplete(v, s[..|s| - |rest|], p, rest);
      assert s[..|s| - |rest|] + rest == s;
    }
  }

  lemma PrototypeComplete(v: Values, used: seq<Token>, p: A.Prototype, rest: seq<Token>)
    requires SpellsPrototype(v, used, p)
    ensures ParsePrototype(v, used + rest) == Good(p, rest)
  {
    hide SpellsName, ParseName, ParseParams, SpellsParams;
    var i :| 0 <= i < |used| && SpellsAt(v, used, p, i);
    var more := used[i + 1..] + rest;
    assert used + rest == used[..i] + ([OPEN] + more);
    HeadNext(OPEN, more);
    NameSpelled(v, used[..i], p, [OPEN] + more);
    ParamsSpelled(used[i + 1..], p.params, rest);
  }

  lemma PrototypeSound(v: Values, s: seq<Token>, p: A.Prototype, rest: seq<Token>)
    requires ParsePrototype(v, s) == Good(p, rest)
    ensures UsedFor(v, s, p, rest)
  {
    hide SpellsName, ParseName, ParseParams, SpellsParams;
    var mid := ParseName(v, s).rest;
    assert mid != [] && mid[0] == OPEN;
    NameRead(v, s, p);
    ParamsRead(Next(mid));
    Joined(v, s, p, mid, rest);
  }

  lemma Joined(v: Values, s: seq<Token>, p: A.Prototype, mid: seq<Token>, rest: seq<Token>)
    requires Remains(mid, s) && SpellsName(v, s[..|s| - |mid|], p) && mid != [] && mid[0] == OPEN
    requires Remains(rest, mid[1..]) && SpellsParams(mid[1..][..|mid| - 1 - |rest|], p.params)
    ensures UsedFor(v, s, p, rest)
  {
    hide SpellsName, SpellsParams;
    var i := |s| - |mid|;
    var used := s[..|s| - |rest|];
    assert s == s[..i] + mid;
    assert used[..i] == s[..i] && used[i] == mid[0];
    assert used[i + 1..] == mid[1..][..|mid| - 1 - |rest|];
    assert SpellsAt(v, used, p, i);
  }

  // ----- What is skipped after an error -----

  /** A token that no expression starts with. */
  predicate Stray(k: Token) { k in {Token.Then, Token.Else, Token.In, Token.Binary, Token.Unary, COMMA} }

  lemma StartsNothing(table: Table, k: Token, more: seq<Token>)
    requires Stray(k)
    ensures ParseExpression(table, [k] + more).Fail? && ParseExpression(table, [k] + more).rest == [k] + more
  {
    HeadNext(k, more);
    assert ParsePrimary(table, [k] + more).Fail?;
  }

  lemma ReadsVariable(table: Table, x: string, rest: seq<Token>)
    requires Head(rest) != OPEN
    ensures ParseUnary(table, [Identifier(x)] + rest) == Good(A.Variable(x), rest)
  {
    HeadNext(Identifier(x), rest);
    assert ParsePrimary(table, [Identifier(x)] + rest) == ParseIdentifier(table, x, rest);
  }

  /** A token that nothing starts with is skipped, alone or behind `def` or `extern`, and nothing else is. */
  lemma SkipsOneToken(v: Values, table: Table, k: Token, more: seq<Token>)
    requires Stray(k)
    ensures NextItem(v, table, [k] + more) == (None, more)
    ensures k !in {Token.Unary, Token.Binary} ==> NextItem(v, table, [Token.Def, k] + more) == (None, more)
    ensures k !in {Token.Unary, Token.Binary} ==> NextItem(v, table, [Token.Extern, k] + more) == (None, more)
  {
    hide ParseExpression;
    HeadNext(k, more);
    StartsNothing(table, k, more);
    assert [Token.Def, k] + more == [Token.Def] + ([k] + more);
    assert [Token.Extern, k] + more == [Token.Extern] + ([k] + more);
    HeadNext(Token.Def, [k] + more);
    HeadNext(Token.Extern, [k] + more);
  }

  /** The tokens up to the one that is skipped. */
  function UpTo(left: seq<Token>, rest: seq<Token>): seq<Token>
    requires |rest| <= |left|
  {
    left[..|left| - |rest|]
  }

  /**
   After an error one token is skipped, the one at which the parser gave up: with the same tokens up to that
   one, whatever stands behind it is what is left.
   */
  lemma ErrorSkips(v: Values, table: Table, left: seq<Token>, more: seq<Token>)
    requires left != [] && NextItem(v, table, left).0.None? && NextItem(v, table, left).1 != []
    ensures var rest := NextItem(v, table, left).1;
            && |rest| < |left| && left == UpTo(left, rest) + rest
            && NextItem(v, table, UpTo(left, rest) + more) == (None, more)
  {
    hide ParseDefinition, ParsePrototype, ParseExpression, Remains;
    var rest := NextItem(v, table, left).1;
    if Head(left) == SEMICOLON {
      HeadNext(SEMICOLON, more);
      assert UpTo(left, rest) == [SEMICOLON];
    } else {
      var r := GivenUp(v, table, left);
      assert rest == Next(r) by { WhereGivenUp(v, table, left); }
      WhereGivenUp(v, table, left);
      var left' := UpTo(left, rest) + more;
      SwapBehind(left, r, more);
      SameGivenUp(v, table, left, left', [r[0]] + more);
      HeadNext(r[0], more);
    }
  }

  /** What the parser has not read when it gives up. */
  function GivenUp(v: Values, table: Table, left: seq<Token>): seq<Token>
    requires left != []
  {
    match Head(left)
    case Def => ParseDefinition(v, table, left).rest
    case Extern => ParsePrototype(v, Next(left)).rest
    case _ => ParseExpression(table, left).rest
  }

  lemma WhereGivenUp(v: Values, table: Table, left: seq<Token>)
    requires left != [] && Head(left) != SEMICOLON && NextItem(v, table, left).0.None?
    ensures Remains(GivenUp(v, table, left), left) && NextItem(v, table, left).1 == Next(GivenUp(v, table, left))
  {
    hide ParseDefinition, ParsePrototype, ParseExpression, Remains;
    match Head(left)
    case Def => DefinitionRemains(v, table, left);
    case Extern =>
      PrototypeRemains(v, Next(left));
      Same(left);
      Trans(GivenUp(v, table, left), Next(left), left);
    case _ => ExpressionRemains(table, left);
  }

  lemma SwapBehind(left: seq<Token>, r: seq<Token>, more: seq<Token>)
    requires Remains(r, left) && r != []
    ensures var left' := UpTo(left, Next(r)) + more;
            |Next(r)| <= |left| && Swapped(left, r, left', [r[0]] + more) && left == UpTo(left, Next(r)) + Next(r)
  {
    var left' := UpTo(left, Next(r)) + more;
    assert left' == Used(left, r) + ([r[0]] + more);
  }

  lemma SameGivenUp(v: Values, table: Table, left: seq<Token>, left': seq<Token>, r': seq<Token>)
    requires left != [] && Head(left) != SEMICOLON && NextItem(v, table, left).0.None?
    requires Swapped(left, GivenUp(v, table, left), left', r') && r' != []
    ensures NextItem(v, table, left') == (None, Next(r'))
  {
    hide ParseDefinition, ParsePrototype, ParseExpression, Remains, Swapped, With;
    var r := GivenUp(v, table, left);
    assert left' != [] by { NotEmpty(left, r, left', r'); }
    match Head(left)
    case Def =>
      DefinitionLocal(v, table, left, left', r');
      SwappedHead(left, r, left', r');
      FailsWith(ParseDefinition(v, table, left), r');
    case Extern =>
      PrototypeRemains(v, Next(left));
      SwappedHead(left, r, left', r');
      PrototypeLocal(v, Next(left), Next(left'), r');
      FailsWith(ParsePrototype(v, Next(left)), r');
    case _ =>
      SwappedHead(left, r, left', r');
      ExpressionLocal(table, left, left', r');
      FailsWith(ParseExpression(table, left), r');
  }

  lemma NotEmpty(s: seq<Token>, r: seq<Token>, s': seq<Token>, r': seq<Token>)
    requires Swapped(s, r, s', r') && r' != []
    ensures s' != []
  {
  }

  lemma FailsWith<T>(r: Reply<T>, rest: seq<Token>)
    requires r.Fail?
    ensures With(r, rest) == Fail(r.error, rest)
  {
  }

  /**
   An expression item that cannot be read: if all the tokens that are left begin an expression they are used
   up, and otherwise the token skipped is the first one with which they do not.
   */
  lemma ExpressionErrorSkips(v: Values, table: Table, left: seq<Token>)
    requires left != [] && Head(left) !in {Def, Token.Extern, SEMICOLON} && NextItem(v, table, left).0.None?
    requires TableOk(table)
    ensures var rest := NextItem(v, table, left).1;
            if Continues(table, left) then rest == []
            else |rest| < |left| && !Continues(table, UpTo(left, rest))
                 && Continues(table, left[..|left| - |rest| - 1])
  {
    hide ParseDefinition, ParsePrototype, ParseExpression, Continues;
    var r := ParseExpression(table, left).rest;
    var rest := NextItem(v, table, left).1;
    GivesUpAtFirst(table, left);
    if r != [] {
      assert UpTo(left, rest) == Used(left, r) + [r[0]];
      LongerFails(table, Used(left, r) + [r[0]], left);
    } else {
      assert Used(left, r) == left;
    }
  }

  lemma LongerFails(table: Table, u: seq<Token>, left: seq<Token>)
    requires u <= left && !Continues(table, u)
    ensures !Continues(table, left)
  {
    hide ParseExpression, IsExpression;
    forall c: seq<Token>
      ensures !IsExpression(table, left + c)
    {
      assert left + c == u + (left[|u|..] + c);
    }
  }

  // ----- Which tokens are an item -----

  /** An `extern` with a prototype, a `def` with a prototype and an expression, or an expression on its own. */
  ghost predicate SpellsItem(v: Values, table: Table, left: seq<Token>, item: Item, rest: seq<Token>) {
    match item
    case Extern(p) => left != [] && left[0] == Token.Extern && UsedFor(v, left[1..], p, rest)
    case Define(d) =>
      if left != [] && left[0] == Def then exists mid :: SpellsDefinition(v, table, left[1..], d, mid, rest)
      else
        && left != [] && left[0] !in {Token.Extern, Char(';')}
        && d.proto == A.Prototype("__anon_expr", [], false, 0) && ParseExpression(table, left) == Good(d.body, rest)
  }

  ghost predicate SpellsDefinition(v: Values, table: Table, s: seq<Token>, d: A.Definition, mid: seq<Token>,
                                   rest: seq<Token>) {
    UsedFor(v, s, d.proto, mid) && ParseExpression(table, mid) == Good(d.body, rest)
  }

  /** The next turn handles an item exactly when the tokens in front spell it, and goes on behind them. */
  lemma ItemReadIff(v: Values, table: Table, left: seq<Token>, item: Item, rest: seq<Token>)
    requires left != []
    ensures NextItem(v, table, left) == (Some(item), rest) <==> SpellsItem(v, table, left, item, rest)
  {
    hide ParseExpression, ParsePrototype, UsedFor;
    if item.Extern? {
      PrototypeAcceptsIff(v, Next(left), item.proto, rest);
    } else if left[0] == Def {
      forall mid
        ensures ParsePrototype(v, Next(left)) == Good(item.def.proto, mid)
                <==> UsedFor(v, left[1..], item.def.proto, mid)
      {
        PrototypeAcceptsIff(v, Next(left), item.def.proto, mid);
      }
      var u := ParsePrototype(v, Next(left));
      if NextItem(v, table, left) == (Some(item), rest) {
        assert SpellsDefinition(v, table, left[1..], item.def, u.rest, rest);
      }
    }
  }

  // ----- How an operator's tokens are read -----

  /** A character between two names is a binary operator exactly when the table has a positive entry for it. */
  lemma ReadsBinaryIff(table: Table, x: string, c: char, y: string)
    requires c != '('
    ensures var s := [Identifier(x), Char(c), Identifier(y)];
            ParseExpression(table, s)
            == if c < 128 as char && c in table && table[c] > 0
               then Good(A.Binary(c, A.Variable(x), A.Variable(y)), [])
               else Good(A.Variable(x), s[1..])
  {
    var s := [Identifier(x), Char(c), Identifier(y)];
    ReadsVariable(table, x, Next(s));
    assert s == [Identifier(x)] + Next(s);
    if Prec(table, Char(c)) > 0 {
      var t := Next(s);
      ReadsVariable(table, y, []);
      assert Next(t) == [Identifier(y)] + [];
      assert ParseBinOpRHS(table, 0, A.Binary(c, A.Variable(x), A.Variable(y)), [])
          == Good(A.Binary(c, A.Variable(x), A.Variable(y)), []);
    }
  }

  /** Every ASCII character but `(` and `,` in front of an operand is a unary operator. */
  lemma ReadsUnaryIff(table: Table, c: char, x: string)
    ensures var r := ParseExpression(table, [Char(c), Identifier(x)]);
            if c < 128 as char && c != '(' && c != ',' then r == Good(A.Unary(c, A.Variable(x)), []) else r.Fail?
  {
    var s := [Char(c), Identifier(x)];
    ReadsVariable(table, x, []);
    assert Next(s) == [Identifier(x)] + [];
    if c == '(' {
      assert ParseExpression(table, Next(s)).rest == [];
      assert ParseParen(table, Next(s)).Fail?;
    }
    assert ParseUnary(table, s) == if UnaryToken(Char(c)) then Good(A.Unary(c, A.Variable(x)), [])
                                   else ParsePrimary(table, s);
  }

  // ----- What a turn of the loop changes in the table -----

  /** The item defines the binary operator `c` and its function has no body yet. */
  predicate DefinesOperator(s: Session, item: Option<Item>, c: char) {
    && item.Some? && item.value.Define? && item.value.def.proto.isOperator
    && item.value.def.proto.name == "binary" + [c] && !HasBody(s, "binary" + [c])
  }

  predicate HasBody(s: Session, f: string) { f in s.gl.mod && s.gl.mod[f].code.Some? }

  /**
   A turn that handles a definition of `binary c`, whose function has no body yet, gives `c` the
   precedence written there and makes a binary operator of it for what is read next; nothing else gives any
   token another precedence.
   */
  lemma TurnExact(m: M.Arith, v: Values, w: World, k: Token)
    requires w.left != []
    ensures var (item, _) := NextItem(v, w.table, w.left);
            Prec(Turn(m, v, w).table, k)
            == if k.Char? && DefinesOperator(w.session, item, k.c) then item.value.def.proto.precedence
               else Prec(w.table, k)
  {
    hide ParseExpression, ParsePrototype, Handle, SpellsPrototype;
    var (item, _) := NextItem(v, w.table, w.left);
    if item.Some? && item.value.Define? && item.value.def.proto.isOperator {
      var p := item.value.def.proto;
      var r := ParsePrototype(v, Next(w.left));
      assert r == Good(p, r.rest);
      PrototypeAcceptsIff(v, Next(w.left), p, r.rest);
      OperatorNames(v, Next(w.left)[..|Next(w.left)| - |r.rest|], p);
      if |p.params| == 2 {
        var c := p.name[|p.name| - 1];
        assert p.name == "binary" + [c];
      }
      if k.Char? && p.name == "binary" + [k.c] {
        assert p.name[|p.name| - 1] == k.c;
      }
    }
  }

  /** Operators have the names of their kind, and a binary one has a precedence from 1 to 100. */
  lemma OperatorNames(v: Values, s: seq<Token>, p: A.Prototype)
    requires SpellsPrototype(v, s, p) && p.isOperator
    ensures |p.params| == 1 ==> exists c :: Ascii(c) && p.name == "unary" + [c]
    ensures |p.params| == 2 ==> 1 <= p.precedence <= 100 && exists c :: Ascii(c) && p.name == "binary" + [c]
    ensures |p.params| in {1, 2}
  {
    var i :| 0 <= i < |s| && SpellsAt(v, s, p, i);
  }

  /** After the definition of a binary operator, its character between two names is read as this operator. */
  lemma OperatorRead(m: M.Arith, v: Values, w: World, c: char, x: string, y: string)
    requires w.left != [] && c != '(' && DefinesOperator(w.session, NextItem(v, w.table, w.left).0, c)
    ensures ParseExpression(Turn(m, v, w).table, [Identifier(x), Char(c), Identifier(y)])
            == Good(A.Binary(c, A.Variable(x), A.Variable(y)), [])
  {
    hide ParseExpression, NextItem, Turn;
    TurnExact(m, v, w, Char(c));
    ReadsBinaryIff(Turn(m, v, w).table, x, c, y);
  }
}
