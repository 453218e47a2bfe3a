/**
 Whole programs: the definitions and `extern` declarations of a session in the order they are handled,
 what the module holds afterwards, and what calling a function of it does.
 */
module Programs {
  import opened Prelude
  import opened Ast
  import opened Machine
  import opened Codegen
  import opened Semantics
  import opened Simulation
  import opened Correctness
  import opened Scoping
  import opened Safety

  // ----- One call -----

  function Initial(f: string, args: seq<Double>, t: Trace): State { Run([Enter(f, args)], t) }

  /** What calling `f` means in the source. */
  function CallOf(k: nat, m: Arith, p: Program, f: string, args: seq<Double>, t: Trace): Outcome<Double> {
    Apply(k, m, p, f, args, map[], t)
  }

  /**
   A call that the source finishes within some bound halts the machine with the same result and events;
   otherwise the machine runs on, with the same events so far.
   */
  lemma CallSimulated(k: nat, m: Arith, p: Program, mod: Module, f: string, args: seq<Double>, t: Trace)
      returns (n: nat)
    requires Linked(m, p, mod) && Plain(p) && f in p && |args| == |p[f].params|
    ensures var r := CallOf(k, m, p, f, args, t);
            && (r.Done? ==> Steps(m, mod, n, Initial(f, args, t)) == Halted(r.value, r.trace))
            && (r.Timeout? ==> k <= n + 1 && Steps(m, mod, n, Initial(f, args, t)).Run?
                               && Steps(m, mod, n, Initial(f, args, t)).trace == r.trace)
  {
    hide Eval, CompiledUnder;
    if k == 0 {
      n := 0;
    } else {
      assert Compiled(m, p[f], mod[f]);
      var mod0: Module, protos0: map<string, Prototype> :| CompiledUnder(m, mod0, protos0, p[f], mod[f]);
      var c := Ctx(m, p, mod, f, mod[f].code.value, []);
      n := SimFunction(c, k - 1, mod0, protos0, args, t);
      assert [Enter(f, args)] + [] == [Enter(f, args)];
    }
  }

  ghost predicate NeverStuck(m: Arith, p: Program, f: string, args: seq<Double>, t: Trace) {
    forall k: nat :: !CallOf(k, m, p, f, args, t).Stuck?
  }

  /** The source call ends with `v` after the events `t'`. */
  ghost predicate SourceEnds(m: Arith, p: Program, f: string, args: seq<Double>, t: Trace, v: Double, t': Trace) {
    exists k: nat :: CallOf(k, m, p, f, args, t) == Done(v, map[], t')
  }

  ghost predicate MachineEnds(m: Arith, mod: Module, f: string, args: seq<Double>, t: Trace, v: Double, t': Trace) {
    exists n: nat :: Steps(m, mod, n, Initial(f, args, t)) == Halted(v, t')
  }

  /** The machine halts with a result and events exactly when the source call ends with them. */
  lemma CallEndsIff(m: Arith, p: Program, mod: Module, f: string, args: seq<Double>, t: Trace, v: Double, t': Trace)
    requires Linked(m, p, mod) && Plain(p) && f in p && |args| == |p[f].params| && NeverStuck(m, p, f, args, t)
    ensures SourceEnds(m, p, f, args, t, v, t') <==> MachineEnds(m, mod, f, args, t, v, t')
  {
    hide Linked, Plain, Apply;
    if SourceEnds(m, p, f, args, t, v, t') {
      var k: nat :| CallOf(k, m, p, f, args, t) == Done(v, map[], t');
      var n := CallSimulated(k, m, p, mod, f, args, t);
    }
    if MachineEnds(m, mod, f, args, t, v, t') {
      var n: nat :| Steps(m, mod, n, Initial(f, args, t)) == Halted(v, t');
      var n2 := CallSimulated(n + 2, m, p, mod, f, args, t);
      var r := CallOf(n + 2, m, p, f, args, t);
      assert !r.Stuck?;
      if r.Timeout? {
        StoppedStays(m, mod, n, n2, Initial(f, args, t));
        assert false;
      }
      if n <= n2 {
        StoppedStays(m, mod, n, n2, Initial(f, args, t));
      } else {
        StoppedStays(m, mod, n2, n, Initial(f, args, t));
      }
      CallKeepsVars(n + 2, m, p, f, args, t);
    }
  }

  lemma CallKeepsVars(k: nat, m: Arith, p: Program, f: string, args: seq<Double>, t: Trace)
    ensures var r := CallOf(k, m, p, f, args, t); r.Done? ==> r.vars == map[]
  {
  }

  ghost predicate Endless(m: Arith, p: Program, f: string, args: seq<Double>, t: Trace) {
    forall k: nat :: CallOf(k, m, p, f, args, t).Timeout?
  }

  ghost predicate MachineRuns(m: Arith, mod: Module, f: string, args: seq<Double>, t: Trace) {
    forall n: nat :: Steps(m, mod, n, Initial(f, args, t)).Run?
  }

  /** A source call that never ends is a machine that never stops. */
  lemma CallDivergesIff(m: Arith, p: Program, mod: Module, f: string, args: seq<Double>, t: Trace)
    requires Linked(m, p, mod) && Plain(p) && f in p && |args| == |p[f].params| && NeverStuck(m, p, f, args, t)
    ensures Endless(m, p, f, args, t) <==> MachineRuns(m, mod, f, args, t)
  {
    hide Linked, Plain, Apply;
    if Endless(m, p, f, args, t) {
      forall n: nat
        ensures Steps(m, mod, n, Initial(f, args, t)).Run?
      {
        var n2 := CallSimulated(n + 1, m, p, mod, f, args, t);
        assert CallOf(n + 1, m, p, f, args, t).Timeout?;
        if !Steps(m, mod, n, Initial(f, args, t)).Run? {
          StoppedStays(m, mod, n, n2, Initial(f, args, t));
        }
      }
    } else {
      var k: nat :| !CallOf(k, m, p, f, args, t).Timeout?;
      var n := CallSimulated(k, m, p, mod, f, args, t);
      assert !CallOf(k, m, p, f, args, t).Stuck?;
      assert !Steps(m, mod, n, Initial(f, args, t)).Run?;
    }
  }

  /** At some point the events of the source call begin with `u`. */
  ghost predicate SourceMakes(m: Arith, p: Program, f: string, args: seq<Double>, t: Trace, u: Trace) {
    exists k: nat :: SourceShows(CallOf(k, m, p, f, args, t), u)
  }

  ghost predicate SourceShows(r: Outcome<Double>, u: Trace) { !r.Stuck? && u <= r.trace }

  ghost predicate MachineMakes(m: Arith, mod: Module, f: string, args: seq<Double>, t: Trace, u: Trace) {
    exists n: nat :: MachineShows(Steps(m, mod, n, Initial(f, args, t)), u)
  }

  ghost predicate MachineShows(s: State, u: Trace) { !s.Wrong? && u <= s.trace }

  /** Whether or not a call ends, the machine makes the events that the source makes, in the same order. */
  lemma CallEventsIff(m: Arith, p: Program, mod: Module, f: string, args: seq<Double>, t: Trace, u: Trace)
    requires Linked(m, p, mod) && Plain(p) && f in p && |args| == |p[f].params| && NeverStuck(m, p, f, args, t)
    ensures SourceMakes(m, p, f, args, t, u) <==> MachineMakes(m, mod, f, args, t, u)
  {
    hide Linked, Plain, Apply, Steps;
    if SourceMakes(m, p, f, args, t, u) {
      var k: nat :| SourceShows(CallOf(k, m, p, f, args, t), u);
      var n := CallSimulated(k, m, p, mod, f, args, t);
      assert MachineShows(Steps(m, mod, n, Initial(f, args, t)), u);
    }
    if MachineMakes(m, mod, f, args, t, u) {
      var n: nat :| MachineShows(Steps(m, mod, n, Initial(f, args, t)), u);
      var n2 := CallSimulated(n + 1, m, p, mod, f, args, t);
      var r := CallOf(n + 1, m, p, f, args, t);
      assert !r.Stuck?;
      if n <= n2 {
        TraceGrows(m, mod, n, n2, Initial(f, args, t));
      } else {
        StoppedStays(m, mod, n2, n, Initial(f, args, t));
      }
      assert SourceShows(r, u);
    }
  }

  /** The machine never reads an undefined register or slot, nor leaves the code. */
  lemma CallNeverWrong(m: Arith, p: Program, mod: Module, f: string, args: seq<Double>, t: Trace, n: nat)
    requires Linked(m, p, mod) && Plain(p) && f in p && |args| == |p[f].params| && NeverStuck(m, p, f, args, t)
    ensures !Steps(m, mod, n, Initial(f, args, t)).Wrong?
  {
    hide Linked, Plain, Apply;
    var n2 := CallSimulated(n + 1, m, p, mod, f, args, t);
    assert !CallOf(n + 1, m, p, f, args, t).Stuck?;
    if Steps(m, mod, n, Initial(f, args, t)).Wrong? {
      if n <= n2 {
        StoppedStays(m, mod, n, n2, Initial(f, args, t));
      } else {
        StoppedStays(m, mod, n2, n, Initial(f, args, t));
      }
    }
  }

  // ----- A session -----

  datatype Item = Define(def: Definition) | Extern(proto: Prototype)

  /**
   The module and prototypes, and the definitions accepted so far under the parameter names they were
   compiled with.
   */
  datatype Session = Session(gl: Globals, p: Program)

  function Handle(m: Arith, s: Session, item: Item): Session {
    match item
    case Define(d) =>
      var (gl, r) := GenDefinition(m, s.gl, d);
      Session(gl, if r.Ok? then s.p[d.proto.name := Source(r.value.params, d.body)] else s.p)
    case Extern(proto) =>
      Session(Globals(Declare(s.gl.mod, proto), s.gl.protos[proto.name := proto]), s.p)
  }

  function HandleAll(m: Arith, s: Session, items: seq<Item>): Session
    decreases |items|
  {
    if items == [] then s else HandleAll(m, Handle(m, s, items[0]), items[1..])
  }

  const EMPTY := Session(Globals(map[], map[]), map[])

  function ProtoOf(item: Item): Prototype {
    match item
    case Define(d) => d.proto
    case Extern(proto) => proto
  }

  /** The prototypes seen for a name all have the number of parameters `arity` gives it. */
  ghost predicate Follows(item: Item, arity: Arities) {
    var proto := ProtoOf(item);
    proto.name in arity && |proto.params| == arity[proto.name]
  }

  /** A function whose name is that of an operator is that operator, with its number of operands. */
  ghost predicate ProtoPlain(p: Prototype) {
    forall op: char :: Symbol(op)
      ==> (p.name == UnaryName(op) ==> |p.params| == 1) && (p.name == BinaryName(op) ==> |p.params| == 2)
  }

  ghost predicate ItemPlain(item: Item) {
    && ProtoPlain(ProtoOf(item)) && Distinct(ProtoOf(item).params)
    && (item.Define? ==> NoRepeats(item.def.body) && SymbolOps(item.def.body))
  }

  ghost predicate OperatorArities(arity: Arities) {
    && (forall op: char :: Symbol(op) && UnaryName(op) in arity ==> arity[UnaryName(op)] == 1)
    && (forall op: char :: Symbol(op) && BinaryName(op) in arity ==> arity[BinaryName(op)] == 2)
  }

  /** The arities of the names that occur. */
  function Occurring(items: seq<Item>, arity: Arities): Arities {
    map f | f in arity && f in (set i | 0 <= i < |items| :: ProtoOf(items[i]).name) :: arity[f]
  }

  lemma OccurringFits(items: seq<Item>, arity: Arities)
    requires forall i :: 0 <= i < |items| ==> Follows(items[i], arity) && ItemPlain(items[i])
    ensures OperatorArities(Occurring(items, arity))
    ensures forall i :: 0 <= i < |items| ==> Follows(items[i], Occurring(items, arity))
  {
    hide NoRepeats, SymbolOps;
    var a := Occurring(items, arity);
    forall f | f in a
      ensures exists i :: 0 <= i < |items| && ProtoOf(items[i]).name == f && a[f] == |ProtoOf(items[i]).params|
    {
      var i :| 0 <= i < |items| && ProtoOf(items[i]).name == f;
      assert Follows(items[i], arity);
    }
    forall op: char | Symbol(op)
      ensures UnaryName(op) in a ==> a[UnaryName(op)] == 1
      ensures BinaryName(op) in a ==> a[BinaryName(op)] == 2
    {
      if UnaryName(op) in a {
        var i :| && 0 <= i < |items| && ProtoOf(items[i]).name == UnaryName(op)
                 && a[UnaryName(op)] == |ProtoOf(items[i]).params|;
        assert ItemPlain(items[i]);
      }
      if BinaryName(op) in a {
        var i :| && 0 <= i < |items| && ProtoOf(items[i]).name == BinaryName(op)
                 && a[BinaryName(op)] == |ProtoOf(items[i]).params|;
        assert ItemPlain(items[i]);
      }
    }
    forall i | 0 <= i < |items|
      ensures Follows(items[i], a)
    {
      assert Follows(items[i], arity);
    }
  }

  ghost predicate Consistent(s: Session, arity: Arities) {
    && (forall f :: f in s.gl.mod ==> f in arity && |s.gl.mod[f].params| == arity[f])
    && (forall f :: f in s.gl.protos ==> f in arity && |s.gl.protos[f].params| == arity[f])
    && (forall f :: f in s.p ==> f in s.gl.mod && s.p[f].params == s.gl.mod[f].params)
  }

  ghost predicate BodiesOk(s: Session, arity: Arities) {
    forall f :: f in s.p ==> WellScoped(s.p[f].body, (set x | x in s.p[f].params), arity)
  }

  /** What a definition does to the module: other functions stay, and on success the compiled body is there. */
  lemma DefinitionEffect(m: Arith, gl: Globals, d: Definition)
    ensures var (gl', r) := GenDefinition(m, gl, d);
            var name := d.proto.name;
            && (forall f :: f != name && f in gl.mod ==> f in gl'.mod && gl'.mod[f] == gl.mod[f])
            && (forall f :: f != name && f in gl'.mod && f !in gl.mod
                  ==> f in gl.protos && gl'.mod[f] == Fn(gl.protos[f].params, None))
            && gl'.protos == gl.protos[name := d.proto]
            && (r.Ok? ==> (name in gl.mod ==> gl.mod[name].code.None? && r.value.params == gl.mod[name].params)
                          && (name !in gl.mod ==> r.value.params == d.proto.params)
                          && name in gl'.mod && gl'.mod[name] == r.value && r.value.code.Some?
                          && CompiledUnder(m, Declare(gl.mod, d.proto), gl'.protos, Source(r.value.params, d.body),
                             r.value))
            && (r.Err? ==> if name in gl.mod && gl.mod[name].code.Some?
                           then name in gl'.mod && gl'.mod[name] == gl.mod[name] else name !in gl'.mod)
  {
    hide GenExpr, GenParams;
    var protos := gl.protos[d.proto.name := d.proto];
    var mod := Declare(gl.mod, d.proto);
    var params := mod[d.proto.name].params;
    var g := GenParams(Codegen.Start(mod, protos), params, 0);
    ParamsSame(Codegen.Start(mod, protos), params, 0);
    ExprGrows(m, g, d.body);
  }

  lemma ParamsSame(g: Gen, params: seq<string>, i: nat)
    requires i <= |params|
    ensures var h := GenParams(g, params, i); h.mod == g.mod && h.protos == g.protos
    decreases |params| - i
  {
    if i < |params| {
      ParamsSame(Bind(g, params[i], Arg(i)), params, i + 1);
    }
  }

  lemma LinkedAfter(m: Arith, s: Session, item: Item)
    requires Linked(m, s.p, s.gl.mod)
    ensures var s' := Handle(m, s, item); Linked(m, s'.p, s'.gl.mod)
  {
    hide GenDefinition, CompiledUnder;
    if item.Define? {
      DefinitionEffect(m, s.gl, item.def);
      var s' := Handle(m, s, item);
      var (gl', r) := GenDefinition(m, s.gl, item.def);
      assert s'.gl == gl';
      assert s'.p == if r.Ok? then s.p[item.def.proto.name := Source(r.value.params, item.def.body)] else s.p;
      forall f | f in s'.p
        ensures f in s'.gl.mod && Compiled(m, s'.p[f], s'.gl.mod[f])
      {
        assert f in s.p ==> Compiled(m, s.p[f], s.gl.mod[f]);
      }
    }
  }

  lemma PlainAfter(m: Arith, s: Session, item: Item)
    requires Plain(s.p) && Symbolic(s.p) && ItemPlain(item)
    ensures Plain(Handle(m, s, item).p) && Symbolic(Handle(m, s, item).p)
  {
    hide GenDefinition, NoRepeats, SymbolOps;
  }

  ghost predicate Symbolic(p: Program) { forall f :: f in p ==> SymbolOps(p[f].body) }

  lemma ConsistentAfter(m: Arith, s: Session, item: Item, arity: Arities)
    requires Linked(m, s.p, s.gl.mod) && Consistent(s, arity) && Follows(item, arity)
    ensures Consistent(Handle(m, s, item), arity)
  {
    hide GenDefinition, CompiledUnder, Compiled, GenBody;
    if item.Define? {
      DefinitionEffect(m, s.gl, item.def);
      var s' := Handle(m, s, item);
      var (gl', r) := GenDefinition(m, s.gl, item.def);
      var name := item.def.proto.name;
      assert s'.gl == gl';
      assert s'.p == if r.Ok? then s.p[name := Source(r.value.params, item.def.body)] else s.p;
      hide Handle;
      assert name in gl'.mod ==> |gl'.mod[name].params| == arity[name];
      forall f | f in s'.p
        ensures f in gl'.mod && s'.p[f].params == gl'.mod[f].params
      {
        assert f in s.p ==> f in s.gl.mod && s.gl.mod[f].code.Some?;
      }
    }
  }

  /** No list of parameters repeats a name. */
  ghost predicate ParamsDistinct(gl: Globals) {
    && (forall f :: f in gl.mod ==> Distinct(gl.mod[f].params))
    && (forall f :: f in gl.protos ==> Distinct(gl.protos[f].params))
  }

  lemma ParamsDistinctAfter(m: Arith, s: Session, item: Item)
    requires ParamsDistinct(s.gl) && ItemPlain(item)
    ensures ParamsDistinct(Handle(m, s, item).gl)
    ensures item.Define? ==> var (_, r) := GenDefinition(m, s.gl, item.def); r.Ok? ==> Distinct(r.value.params)
  {
    hide GenDefinition, NoRepeats, SymbolOps, Distinct, CompiledUnder, ProtoPlain;
    if item.Define? {
      DefinitionEffect(m, s.gl, item.def);
      var (gl', r) := GenDefinition(m, s.gl, item.def);
      assert Handle(m, s, item).gl == gl';
      hide Handle;
      forall f | f in gl'.mod
        ensures Distinct(gl'.mod[f].params) == true
      {
        assert f != item.def.proto.name && f !in s.gl.mod ==> f in s.gl.protos;
      }
    }
  }

  // ----- Bodies that were accepted are well-scoped -----

  lemma {:induction false} WellScopedMono(e: Expr, scope: set<string>, fns: Arities, arity: Arities)
    requires WellScoped(e, scope, fns) && forall f :: f in fns ==> f in arity && arity[f] == fns[f]
    ensures WellScoped(e, scope, arity)
    decreases e, 1
  {
    match e
    case Number(_) =>
    case Variable(_) =>
    case VarIn(bs, body) =>
      MonoBindings(bs, scope, fns, arity);
      WellScopedMono(body, scope + (set x | x in Names(bs)), fns, arity);
    case Unary(_, a) => WellScopedMono(a, scope, fns, arity);
    case Binary(op, a, b) =>
      WellScopedMono(b, scope, fns, arity);
      if op != '=' {
        WellScopedMono(a, scope, fns, arity);
      }
    case If(c, a, b) =>
      WellScopedMono(c, scope, fns, arity);
      WellScopedMono(a, scope, fns, arity);
      WellScopedMono(b, scope, fns, arity);
    case For(x, start, end, step, body) =>
      WellScopedMono(start, scope, fns, arity);
      WellScopedMono(body, scope + {x}, fns, arity);
      WellScopedMono(end, scope + {x}, fns, arity);
      if step.Some? {
        WellScopedMono(step.value, scope + {x}, fns, arity);
      }
    case Call(_, args) => MonoAll(args, scope, fns, arity);
  }

  lemma {:induction false} MonoAll(es: seq<Expr>, scope: set<string>, fns: Arities, arity: Arities)
    requires WellScopedAll(es, scope, fns) && forall f :: f in fns ==> f in arity && arity[f] == fns[f]
    ensures WellScopedAll(es, scope, arity)
    decreases es, 0
  {
    if es != [] {
      WellScopedMono(es[0], scope, fns, arity);
      MonoAll(es[1..], scope, fns, arity);
    }
  }

  lemma {:induction false} MonoBindings(bs: seq<Binding>, scope: set<string>, fns: Arities, arity: Arities)
    requires WellScopedBindings(bs, scope, fns) && forall f :: f in fns ==> f in arity && arity[f] == fns[f]
    ensures WellScopedBindings(bs, scope, arity)
    decreases bs, 0
  {
    if bs != [] {
      if bs[0].init.Some? {
        WellScopedMono(bs[0].init.value, scope, fns, arity);
      }
      MonoBindings(bs[1..], scope + {bs[0].name}, fns, arity);
    }
  }

  lemma ParamsFit(g: Gen, params: seq<string>, i: nat)
    requires i <= |params| && Fit(g) && g.named.Keys == set x | x in params[..i]
    ensures var h := GenParams(g, params, i);
            Fit(h) && h.named.Keys == (set x | x in params) && KnownIn(h) == KnownIn(g)
    decreases |params| - i
  {
    if i == |params| {
      assert params[..i] == params;
    } else {
      BindFit(g, params[i], Arg(i));
      assert params[..i + 1] == params[..i] + [params[i]];
      ParamsFit(Bind(g, params[i], Arg(i)), params, i + 1);
    }
  }

  /** A definition's body is accepted exactly when it is well-scoped over its parameters and what was known. */
  lemma BodyAcceptedIff(m: Arith, mod: Module, protos: map<string, Prototype>, params: seq<string>, body: Expr)
    requires NoRepeats(body) && Distinct(params)
    ensures GenBody(m, mod, protos, params, body).Good? <==> WellScoped(body, (set x | x in params), Known(mod, protos))
  {
    hide GenExpr, WellScoped, Known, GenParams;
    var g0 := Codegen.Start(mod, protos);
    assert g0.named.Keys == {} == set x | x in params[..0];
    ParamsFit(g0, params, 0);
    ScopingExact(m, GenParams(g0, params, 0), body);
  }

  lemma BodiesAfter(m: Arith, s: Session, item: Item, arity: Arities)
    requires Consistent(s, arity) && BodiesOk(s, arity) && Follows(item, arity) && ItemPlain(item)
    requires ParamsDistinct(s.gl)
    ensures BodiesOk(Handle(m, s, item), arity)
  {
    hide GenDefinition, WellScoped, ParamsDistinct, Distinct, Consistent, Follows, ItemPlain;
    if item.Define? && GenDefinition(m, s.gl, item.def).1.Ok? {
      NewBodyOk(m, s, item, arity);
    }
  }

  lemma NewBodyOk(m: Arith, s: Session, item: Item, arity: Arities)
    requires Consistent(s, arity) && Follows(item, arity) && ItemPlain(item) && ParamsDistinct(s.gl)
    requires item.Define? && GenDefinition(m, s.gl, item.def).1.Ok?
    ensures WellScoped(item.def.body, (set x | x in GenDefinition(m, s.gl, item.def).1.value.params), arity)
  {
    ParamsDistinctAfter(m, s, item);
    hide GenBody, WellScoped, ParamsDistinct, Distinct;
    var d := item.def;
    var params := GenDefinition(m, s.gl, d).1.value.params;
    var mod := Declare(s.gl.mod, d.proto);
    var protos := s.gl.protos[d.proto.name := d.proto];
    BodyAcceptedIff(m, mod, protos, params, d.body);
    WellScopedMono(d.body, (set x | x in params), Known(mod, protos), arity);
  }

  /** What every session keeps. */
  ghost predicate Invariant(m: Arith, s: Session, arity: Arities) {
    && Linked(m, s.p, s.gl.mod) && Plain(s.p) && Symbolic(s.p) && Consistent(s, arity) && BodiesOk(s, arity)
    && ParamsDistinct(s.gl)
  }

  lemma {:induction false} InvariantKept(m: Arith, s: Session, items: seq<Item>, arity: Arities)
    requires Invariant(m, s, arity)
    requires forall i :: 0 <= i < |items| ==> Follows(items[i], arity) && ItemPlain(items[i])
    ensures Invariant(m, HandleAll(m, s, items), arity)
    decreases |items|
  {
    hide Linked, Plain, Symbolic, Consistent, BodiesOk, ParamsDistinct, Handle, Follows, ItemPlain;
    if items != [] {
      LinkedAfter(m, s, items[0]);
      PlainAfter(m, s, items[0]);
      ConsistentAfter(m, s, items[0], arity);
      ParamsDistinctAfter(m, s, items[0]);
      BodiesAfter(m, s, items[0], arity);
      InvariantKept(m, Handle(m, s, items[0]), items[1..], arity);
    }
  }

  lemma SoundSession(m: Arith, s: Session, arity: Arities)
    requires Invariant(m, s, arity) && OperatorArities(arity)
    ensures Sound(s.p)
  {
    hide Linked, Plain, WellScoped;
    forall f | f in s.p
      ensures BodyOk(s.p, s.p[f], arity)
    {
    }
  }

  // ----- Erased functions -----

  /** Some function compiled so far calls `f`. */
  ghost predicate Called(mod: Module, f: string) {
    exists g :: g in mod && mod[g].code.Some? && CalledIn(mod[g].code.value, f)
  }

  ghost predicate CalledIn(code: Code, f: string) {
    exists l, i :: 0 <= l < |code.blocks| && 0 <= i < |code.blocks[l].body| && CallsTo(code.blocks[l].body[i], f)
  }

  predicate CallsTo(i: Instr, f: string) { i.Call? && i.callee == f }

  /** A definition that fails has its function erased, unless that function was defined before. */
  predicate Erases(m: Arith, s: Session, item: Item) {
    item.Define? && var (_, r) := GenDefinition(m, s.gl, item.def); r.Err? && !r.error.Redefined?
  }

  /** No function is erased that code compiled before calls: what such calls do then is undefined. */
  ghost predicate NothingDangles(m: Arith, s: Session, items: seq<Item>)
    decreases |items|
  {
    items != [] ==>
      && (Erases(m, s, items[0]) ==> !Called(s.gl.mod, ProtoOf(items[0]).name))
      && NothingDangles(m, Handle(m, s, items[0]), items[1..])
  }

  /**
   Every session whose prototypes agree on arities, repeat no parameter and whose `var` lists repeat no
   name compiles to a module that does what the accepted definitions mean: calls end with the same results
   and events, run forever together, make the same events meanwhile, and never go wrong.
   */
  lemma SessionCorrect(m: Arith, items: seq<Item>, arity: Arities, f: string, args: seq<Double>, t: Trace, v: Double,
                       t': Trace, n: nat)
    requires forall i :: 0 <= i < |items| ==> Follows(items[i], arity) && ItemPlain(items[i])
    requires NothingDangles(m, EMPTY, items)
    requires var s := HandleAll(m, EMPTY, items); f in s.p && |args| == |s.p[f].params|
    ensures var s := HandleAll(m, EMPTY, items);
            && (SourceEnds(m, s.p, f, args, t, v, t') <==> MachineEnds(m, s.gl.mod, f, args, t, v, t'))
            && (Endless(m, s.p, f, args, t) <==> MachineRuns(m, s.gl.mod, f, args, t))
            && (forall u: Trace :: SourceMakes(m, s.p, f, args, t, u) <==> MachineMakes(m, s.gl.mod, f, args, t, u))
            && !Steps(m, s.gl.mod, n, Initial(f, args, t)).Wrong?
  {
    hide HandleAll, Sound, Apply, Steps, OperatorArities, BodiesOk, Consistent, Follows, ItemPlain, Occurring,
        NothingDangles,
        ParamsDistinct, SourceMakes, MachineMakes, Endless, MachineRuns;
    var s := HandleAll(m, EMPTY, items);
    var known := Occurring(items, arity);
    OccurringFits(items, arity);
    assert Invariant(m, EMPTY, known) by { EmptyInvariant(m, known); }
    InvariantKept(m, EMPTY, items, known);
    SoundSession(m, s, known);
    forall k: nat
      ensures !CallOf(k, m, s.p, f, args, t).Stuck?
    {
      ApplySafe(k, m, s.p, f, args, map[], t);
    }
    CallEndsIff(m, s.p, s.gl.mod, f, args, t, v, t');
    CallDivergesIff(m, s.p, s.gl.mod, f, args, t);
    forall u: Trace
      ensures SourceMakes(m, s.p, f, args, t, u) <==> MachineMakes(m, s.gl.mod, f, args, t, u)
    {
      CallEventsIff(m, s.p, s.gl.mod, f, args, t, u);
    }
    CallNeverWrong(m, s.p, s.gl.mod, f, args, t, n);
  }

  lemma EmptyInvariant(m: Arith, arity: Arities)
    ensures Invariant(m, EMPTY, arity)
  {
  }
}
