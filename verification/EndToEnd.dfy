/** From the text of a session to what its functions do, and from items to a text that gives them back. */
module EndToEnd {
  import A = Ast
  import M = Machine
  import opened Tokens
  import opened Lexing
  import opened Parsing
  import opened Printer
  import opened Programs
  import opened Frontend
  import opened Symbols
  import opened Acceptance
  import W = WellFormed
  import SA = SingleAssignment
  import AV = Availability
  import C = Codegen

  /** What the driver has after reading a text, and the items it handled. */
  function Compile(m: M.Arith, v: Values, table: Table, text: string): (World, seq<Item>) {
    MainLoop(m, v, World(table, EMPTY, Lex(text)))
  }

  /** A layout of a printed expression is read as that expression. */
  lemma ExpressionText(t: Table, e: A.Expr, l: Layout)
    requires TableOk(t) && Printable(t, e) && LayoutOk(l) && TokensOf(l) == Print(t, e, Eof)
    ensures ParseExpression(t, Lex(Render(l))) == Good(e, [])
  {
    hide ParseExpression, Lex, Print, Printable, LayoutOk, TokensOf, Render;
    LexRender(l);
    RoundTrip(t, e, []);
    assert Print(t, e, Eof) + [] == Print(t, e, Eof);
  }

  /** Any layout of a printed program is compiled as the list of its items. */
  lemma ProgramText(m: M.Arith, v: Values, show: nat -> string, table: Table, items: seq<Item>, l: Layout)
    requires Shows(v, show) && ProgramPrintable(m, show, table, EMPTY, items)
    requires LayoutOk(l) && TokensOf(l) == PrintProgram(m, show, table, EMPTY, items)
    ensures var (w, handled) := Compile(m, v, table, Render(l));
            handled == items && w.session == HandleAll(m, EMPTY, items)
  {
    hide MainLoop, Lex, PrintProgram, ProgramPrintable, LayoutOk, TokensOf, Render;
    LexRender(l);
    ProgramRoundTrip(m, v, show, table, EMPTY, items);
  }

  /** Neither a list of parameters nor a `var` list repeats a name. */
  ghost predicate NoRepeatedNames(item: Item) {
    A.Distinct(ProtoOf(item).params) && (item.Define? ==> A.NoRepeats(item.def.body))
  }

  /**
   Whatever the text, with syntax errors and rejected definitions or without: every function that was
   accepted does on the machine what its definition means, whether or not it ever returns.
   */
  lemma TextCorrect(m: M.Arith, v: Values, table: Table, text: string, arity: map<string, nat>, f: string,
                    args: seq<M.Double>, t: M.Trace, r: M.Double, t': M.Trace, n: nat)
    requires var (w, items) := Compile(m, v, table, text);
             && (forall i :: 0 <= i < |items| ==> Follows(items[i], arity) && NoRepeatedNames(items[i]))
             && NothingDangles(m, EMPTY, items)
             && f in w.session.p && |args| == |w.session.p[f].params|
    ensures var s := Compile(m, v, table, text).0.session;
            && (SourceEnds(m, s.p, f, args, t, r, t') <==> MachineEnds(m, s.gl.mod, f, args, t, r, t'))
            && (Endless(m, s.p, f, args, t) <==> MachineRuns(m, s.gl.mod, f, args, t))
            && (forall u: M.Trace :: SourceMakes(m, s.p, f, args, t, u) <==> MachineMakes(m, s.gl.mod, f, args, t, u))
            && !M.Steps(m, s.gl.mod, n, Initial(f, args, t)).Wrong?
  {
    hide MainLoop, HandleAll, Lex, Follows, SourceEnds, MachineEnds, SourceMakes, MachineMakes, Endless,
        MachineRuns, M.Steps,
        CallOf, ProtoPlain, AllApart, NothingDangles;
    var (w, items) := Compile(m, v, table, text);
    LexedApart(text);
    LoopSymbols(m, v, World(table, EMPTY, Lex(text)));
    LoopHandlesItems(m, v, World(table, EMPTY, Lex(text)));
    forall i | 0 <= i < |items|
      ensures ItemPlain(items[i])
    {
      assert ItemSymbols(items[i]) && NoRepeatedNames(items[i]);
    }
    SessionCorrect(m, items, arity, f, args, t, r, t', n);
  }

  /** Whatever the text, if its prototypes agree it compiles the definitions that scoping alone says it does. */
  lemma TextAccepts(m: M.Arith, v: Values, table: Table, text: string, names: map<string, seq<string>>)
    requires var (_, items) := Compile(m, v, table, text);
             AgreeOnNames(items, names) && forall i :: 0 <= i < |items| ==> NoRepeatedNames(items[i])
    ensures var (w, items) := Compile(m, v, table, text); w.session.p == Meanings(items, Counts(names))
  {
    hide MainLoop, HandleAll, Lex, AgreeOnNames, Meanings, ProtoPlain, AllApart;
    var (w, items) := Compile(m, v, table, text);
    LexedApart(text);
    LoopSymbols(m, v, World(table, EMPTY, Lex(text)));
    LoopHandlesItems(m, v, World(table, EMPTY, Lex(text)));
    forall i | 0 <= i < |items|
      ensures ItemPlain(items[i])
    {
      assert ItemSymbols(items[i]) && NoRepeatedNames(items[i]);
    }
    SessionAccepts(m, items, names);
  }

  // ----- What is emitted -----

  /** Blocks are well-formed, and each register is defined once and on every path to its uses. */
  ghost predicate Emitted(code: M.Code) {
    W.CodeWellFormed(code) && SA.DefinedOnce(code.blocks) && AV.UsesDominated(code.blocks)
  }

  ghost predicate ModuleWellFormed(mod: M.Module) {
    forall f :: f in mod && mod[f].code.Some? ==> Emitted(mod[f].code.value) == true
  }

  lemma DefinitionEmitted(m: M.Arith, gl: C.Globals, d: A.Definition)
    ensures var (_, r) := C.GenDefinition(m, gl, d); r.Ok? ==> r.value.code.Some? && Emitted(r.value.code.value) == true
  {
    hide C.GenDefinition, W.CodeWellFormed, SA.DefinedOnce, AV.UsesDominated;
    W.DefinitionWellFormed(m, gl, d);
    SA.DefinitionDefinesOnce(m, gl, d);
    AV.DefinitionDominated(m, gl, d);
  }

  lemma HandleWellFormed(m: M.Arith, s: Session, item: Item)
    requires ModuleWellFormed(s.gl.mod)
    ensures ModuleWellFormed(Handle(m, s, item).gl.mod)
  {
    hide C.GenDefinition, Emitted;
    if item.Define? {
      DefinitionEffect(m, s.gl, item.def);
      DefinitionEmitted(m, s.gl, item.def);
      var s' := Handle(m, s, item);
      var (gl', r) := C.GenDefinition(m, s.gl, item.def);
      assert s'.gl == gl';
      forall f | f in gl'.mod && gl'.mod[f].code.Some?
        ensures Emitted(gl'.mod[f].code.value) == true
      {
        assert f == item.def.proto.name || (f in s.gl.mod && gl'.mod[f] == s.gl.mod[f]);
      }
    }
  }

  lemma {:induction false} SessionWellFormed(m: M.Arith, s: Session, items: seq<Item>)
    requires ModuleWellFormed(s.gl.mod)
    ensures ModuleWellFormed(HandleAll(m, s, items).gl.mod)
    decreases |items|
  {
    hide Handle, ModuleWellFormed;
    if items != [] {
      HandleWellFormed(m, s, items[0]);
      SessionWellFormed(m, Handle(m, s, items[0]), items[1..]);
    }
  }

  /** Whatever the text, the module compiled from it is well-formed. */
  lemma TextWellFormed(m: M.Arith, v: Values, table: Table, text: string)
    ensures ModuleWellFormed(Compile(m, v, table, text).0.session.gl.mod)
  {
    hide MainLoop, HandleAll, Lex;
    LoopHandlesItems(m, v, World(table, EMPTY, Lex(text)));
    SessionWellFormed(m, EMPTY, Compile(m, v, table, text).1);
  }
}
