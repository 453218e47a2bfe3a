/**
 Which items of a session are accepted, told by the items alone: which names are known after them, which
 definitions find their way into the module, and what a rejected one leaves behind.
 */
module Acceptance {
  import opened Prelude
  import opened Ast
  import opened Machine
  import opened Codegen
  import opened Semantics
  import opened Simulation
  import opened Correctness
  import opened Scoping
  import opened Programs

  ghost predicate Agree(items: seq<Item>, arity: Arities) {
    forall i :: 0 <= i < |items| ==> Follows(items[i], arity) && ItemPlain(items[i])
  }

  lemma {:induction false} HandleLast(m: Arith, s: Session, items: seq<Item>, last: Item)
    ensures HandleAll(m, s, items + [last]) == Handle(m, HandleAll(m, s, items), last)
    decreases |items|
  {
    hide Handle;
    if items == [] {
      assert ([last])[1..] == [];
      assert items + [last] == [last];
    } else {
      assert (items + [last])[1..] == items[1..] + [last];
      HandleLast(m, Handle(m, s, items[0]), items[1..], last);
    }
  }

  // ----- Which names are known -----

  /** Whether it is accepted or not, an item makes its own name known and no other. */
  lemma KnownAfter(m: Arith, s: Session, item: Item)
    ensures var s' := Handle(m, s, item);
            s'.gl.mod.Keys + s'.gl.protos.Keys == s.gl.mod.Keys + s.gl.protos.Keys + {ProtoOf(item).name}
  {
    hide GenDefinition, CompiledUnder;
    if item.Define? {
      DefinitionEffect(m, s.gl, item.def);
      var (gl, r) := GenDefinition(m, s.gl, item.def);
      assert Handle(m, s, item).gl == gl;
      hide Handle;
    }
  }

  /** The names of the items so far are known with the numbers of their parameters, and no others. */
  lemma {:induction false} KnownExact(m: Arith, items: seq<Item>, arity: Arities)
    requires Agree(items, arity)
    ensures var gl := HandleAll(m, EMPTY, items).gl; Known(gl.mod, gl.protos) == Occurring(items, arity)
    decreases |items|
  {
    hide HandleAll, Linked, Plain, Symbolic, BodiesOk, ParamsDistinct, ItemPlain, Known, Occurring, Consistent;
    var gl := HandleAll(m, EMPTY, items).gl;
    EmptyInvariant(m, arity);
    InvariantKept(m, EMPTY, items, arity);
    KnownNames(m, items);
    KnownOf(HandleAll(m, EMPTY, items), items, arity);
  }

  lemma KnownOf(s: Session, items: seq<Item>, arity: Arities)
    requires Consistent(s, arity) && s.gl.mod.Keys + s.gl.protos.Keys == NamesOf(items)
    ensures Known(s.gl.mod, s.gl.protos) == Occurring(items, arity)
  {
    assert Occurring(items, arity).Keys == arity.Keys * NamesOf(items);
  }

  function NamesOf(items: seq<Item>): set<string> { set i | 0 <= i < |items| :: ProtoOf(items[i]).name }

  lemma {:induction false} KnownNames(m: Arith, items: seq<Item>)
    ensures var gl := HandleAll(m, EMPTY, items).gl; gl.mod.Keys + gl.protos.Keys == NamesOf(items)
    decreases |items|
  {
    hide Handle;
    if items != [] {
      var n := |items| - 1;
      KnownNames(m, items[..n]);
      HandleLast(m, EMPTY, items[..n], items[n]);
      assert items[..n] + [items[n]] == items;
      KnownAfter(m, HandleAll(m, EMPTY, items[..n]), items[n]);
      forall f
        ensures f in NamesOf(items) <==> f in NamesOf(items[..n]) || f == ProtoOf(items[n]).name
      {
        if f in NamesOf(items) {
          var i :| 0 <= i < |items| && ProtoOf(items[i]).name == f;
          assert i < n ==> items[..n][i] == items[i];
        }
        if f in NamesOf(items[..n]) {
          var i :| 0 <= i < n && ProtoOf(items[..n][i]).name == f;
          assert items[..n][i] == items[i];
        }
      }
    }
  }

  // ----- Which definitions are accepted -----

  /** The functions with a body are those of the accepted definitions. */
  ghost predicate BodiesAccepted(s: Session) { forall f :: f in s.gl.mod && s.gl.mod[f].code.Some? <==> f in s.p }

  lemma BodiesAcceptedAfter(m: Arith, s: Session, item: Item)
    requires BodiesAccepted(s)
    ensures BodiesAccepted(Handle(m, s, item))
  {
    hide GenDefinition, CompiledUnder;
    if item.Define? {
      DefinitionEffect(m, s.gl, item.def);
      var (gl, r) := GenDefinition(m, s.gl, item.def);
      var s' := Handle(m, s, item);
      assert s'.gl == gl;
      assert s'.p == if r.Ok? then s.p[item.def.proto.name := Source(r.value.params, item.def.body)] else s.p;
      hide Handle;
      forall f
        ensures f in gl.mod && gl.mod[f].code.Some? <==> f in s'.p
      {
        assert f != item.def.proto.name && f in gl.mod && f !in s.gl.mod ==> gl.mod[f].code.None?;
      }
    }
  }

  lemma NoBodies()
    ensures BodiesAccepted(EMPTY)
  {
  }

  lemma {:induction false} BodiesAcceptedAll(m: Arith, items: seq<Item>)
    ensures BodiesAccepted(HandleAll(m, EMPTY, items))
    decreases |items|
  {
    hide Handle, BodiesAccepted;
    if items == [] {
      NoBodies();
    } else {
      var n := |items| - 1;
      BodiesAcceptedAll(m, items[..n]);
      HandleLast(m, EMPTY, items[..n], items[n]);
      assert items[..n] + [items[n]] == items;
      BodiesAcceptedAfter(m, HandleAll(m, EMPTY, items[..n]), items[n]);
    }
  }

  /** A function that is declared already keeps the names its parameters have there. */
  function ParamNames(s: Session, p: Prototype): seq<string> {
    if p.name in s.gl.mod then s.gl.mod[p.name].params else p.params
  }

  /** The meaning of `f` is new, and `f` has a body. */
  predicate Accepted(s: Session, s': Session, f: string, source: Source) {
    && s'.p == s.p[f := source]
    && f in s'.gl.mod && s'.gl.mod[f].params == source.params && s'.gl.mod[f].code.Some?
  }

  /** No meaning is new; `f` is erased unless it had a body, which stays. */
  predicate Rejected(s: Session, s': Session, f: string) {
    && s'.p == s.p
    && if f in s.p then f in s.gl.mod && f in s'.gl.mod && s'.gl.mod[f] == s.gl.mod[f] else f !in s'.gl.mod
  }

  /**
   After any items whose prototypes agree on arities, a definition is accepted if and only if no definition
   of its name has been and its body is well-scoped over its parameters and the names of all items so far and
   its own.  An accepted one adds its function and its meaning; a rejected one leaves the meanings alone,
   and erases its function unless that has a body.
   */
  lemma AcceptedIff(m: Arith, items: seq<Item>, arity: Arities, d: Definition)
    requires Agree(items + [Define(d)], arity)
    ensures var (s, s') := (HandleAll(m, EMPTY, items), HandleAll(m, EMPTY, items + [Define(d)]));
            var (f, params) := (d.proto.name, ParamNames(s, d.proto));
            if f !in s.p && WellScoped(d.body, (set x | x in params), Occurring(items + [Define(d)], arity))
            then Accepted(s, s', f, Source(params, d.body)) else Rejected(s, s', f)
  {
    hide WellScoped, NoRepeats, SymbolOps;
    assert forall i :: 0 <= i < |items| ==> (items + [Define(d)])[i] == items[i];
    assert (items + [Define(d)])[|items|] == Define(d);
    var s := HandleAll(m, EMPTY, items);
    HandleLast(m, EMPTY, items, Define(d));
    EmptyInvariant(m, arity);
    InvariantKept(m, EMPTY, items, arity);
    BodiesAcceptedAll(m, items);
    KnownExact(m, items + [Define(d)], arity);
    KnownExact(m, items, arity);
    OneMoreName(items, Define(d), arity);
    DefineExact(m, s, d, arity);
  }

  lemma OneMoreName(items: seq<Item>, item: Item, arity: Arities)
    requires Agree(items + [item], arity)
    ensures Occurring(items + [item], arity) == Occurring(items, arity)[ProtoOf(item).name := |ProtoOf(item).params|]
  {
    hide ItemPlain;
    assert forall i :: 0 <= i < |items| ==> (items + [item])[i] == items[i];
    assert (items + [item])[|items|] == item;
    assert Follows(item, arity);
    forall f
      ensures f in NamesOf(items + [item]) <==> f in NamesOf(items) || f == ProtoOf(item).name
    {
      if f in NamesOf(items) {
        var i :| 0 <= i < |items| && ProtoOf(items[i]).name == f;
        assert ProtoOf((items + [item])[i]).name == f;
      }
    }
  }

  lemma DefineExact(m: Arith, s: Session, d: Definition, arity: Arities)
    requires Invariant(m, s, arity) && BodiesAccepted(s) && Follows(Define(d), arity) && ItemPlain(Define(d))
    ensures var (s', f, params) := (Handle(m, s, Define(d)), d.proto.name, ParamNames(s, d.proto));
            var known := Known(s.gl.mod, s.gl.protos)[f := |d.proto.params|];
            if f !in s.p && WellScoped(d.body, (set x | x in params), known)
            then Accepted(s, s', f, Source(params, d.body)) else Rejected(s, s', f)
  {
    hide WellScoped, NoRepeats, SymbolOps, GenBody, ProtoPlain, Linked, Plain, Symbolic, BodiesOk, CompiledUnder, Known;
    var f := d.proto.name;
    var (mod, protos) := (Declare(s.gl.mod, d.proto), s.gl.protos[f := d.proto]);
    var params := ParamNames(s, d.proto);
    assert mod[f].params == params;
    assert Distinct(params);
    KnownWithOwn(s, d.proto, arity);
    BodyAcceptedIff(m, mod, protos, params, d.body);
    DefinitionEffect(m, s.gl, d);
    assert f in s.p <==> f in s.gl.mod && s.gl.mod[f].code.Some?;
    assert GenDefinition(m, s.gl, d).1.Ok? <==> f !in s.p && GenBody(m, mod, protos, params, d.body).Good?;
    hide GenDefinition;
  }

  lemma KnownWithOwn(s: Session, p: Prototype, arity: Arities)
    requires Consistent(s, arity) && p.name in arity && |p.params| == arity[p.name]
    ensures Known(Declare(s.gl.mod, p), s.gl.protos[p.name := p])
            == Known(s.gl.mod, s.gl.protos)[p.name := |p.params|]
  {
  }

  /** An `extern` makes its name a function of the module, unless it is one already, and changes nothing else. */
  lemma ExternDeclares(m: Arith, items: seq<Item>, p: Prototype)
    ensures var (s, s') := (HandleAll(m, EMPTY, items), HandleAll(m, EMPTY, items + [Item.Extern(p)]));
            && s'.p == s.p && p.name in s'.gl.mod && s'.gl.mod[p.name].params == ParamNames(s, p)
            && (p.name !in s.gl.mod ==> s'.gl.mod[p.name].code.None?)
            && (forall f :: f in s.gl.mod ==> f in s'.gl.mod && s'.gl.mod[f] == s.gl.mod[f])
            && (forall f :: f in s'.gl.mod && f != p.name ==> f in s.gl.mod)
  {
    HandleLast(m, EMPTY, items, Item.Extern(p));
  }

  // ----- Whole sessions -----

  /** All prototypes of a name have the same parameters. */
  ghost predicate AgreeOnNames(items: seq<Item>, names: map<string, seq<string>>) {
    forall i :: 0 <= i < |items| ==> NamedAlike(ProtoOf(items[i]), names)
  }

  predicate NamedAlike(p: Prototype, names: map<string, seq<string>>) { p.name in names && p.params == names[p.name] }

  function Counts(names: map<string, seq<string>>): Arities { map f | f in names :: |names[f]| }

  /**
   The meanings that a session gives, without a module: each definition whose name is new, and whose body is
   well-scoped over its parameters and the names of the items up to it.
   */
  ghost function Meanings(items: seq<Item>, arity: Arities): Program {
    if items == [] then map[]
    else
      var (before, last) := (Meanings(items[..|items| - 1], arity), items[|items| - 1]);
      if && last.Define? && last.def.proto.name !in before
         && WellScoped(last.def.body, (set x | x in last.def.proto.params), Occurring(items, arity))
      then before[last.def.proto.name := Source(last.def.proto.params, last.def.body)]
      else before
  }

  ghost predicate NamedIn(gl: Globals, names: map<string, seq<string>>) {
    && (forall f :: f in gl.mod ==> f in names && gl.mod[f].params == names[f])
    && (forall f :: f in gl.protos ==> f in names && gl.protos[f].params == names[f])
  }

  lemma NamedAfter(m: Arith, s: Session, item: Item, names: map<string, seq<string>>)
    requires NamedIn(s.gl, names) && NamedAlike(ProtoOf(item), names)
    ensures NamedIn(Handle(m, s, item).gl, names)
  {
    hide GenDefinition, CompiledUnder;
    if item.Define? {
      DefinitionEffect(m, s.gl, item.def);
      var gl' := GenDefinition(m, s.gl, item.def).0;
      assert Handle(m, s, item).gl == gl';
      hide Handle;
      forall f | f in gl'.mod
        ensures f in names && gl'.mod[f].params == names[f]
      {
        assert f != item.def.proto.name && f !in s.gl.mod ==> f in s.gl.protos;
      }
    }
  }

  lemma {:induction false} NamedAll(m: Arith, items: seq<Item>, names: map<string, seq<string>>)
    requires AgreeOnNames(items, names)
    ensures NamedIn(HandleAll(m, EMPTY, items).gl, names)
    decreases |items|
  {
    hide Handle;
    if items != [] {
      var n := |items| - 1;
      assert AgreeOnNames(items[..n], names);
      NamedAll(m, items[..n], names);
      HandleLast(m, EMPTY, items[..n], items[n]);
      assert items[..n] + [items[n]] == items;
      NamedAfter(m, HandleAll(m, EMPTY, items[..n]), items[n], names);
    }
  }

  /** A session whose prototypes agree accepts the definitions that scoping alone says it does. */
  lemma {:induction false} SessionAccepts(m: Arith, items: seq<Item>, names: map<string, seq<string>>)
    requires AgreeOnNames(items, names) && forall i :: 0 <= i < |items| ==> ItemPlain(items[i])
    ensures HandleAll(m, EMPTY, items).p == Meanings(items, Counts(names))
    decreases |items|
  {
    hide Handle, ItemPlain, WellScoped, Occurring;
    if items != [] {
      var n := |items| - 1;
      assert items[..n] + [items[n]] == items;
      assert AgreeOnNames(items[..n], names);
      SessionAccepts(m, items[..n], names);
      NamedAll(m, items[..n], names);
      AgreeByNames(items, names);
      if items[n].Define? {
        assert Define(items[n].def) == items[n];
        AcceptedIff(m, items[..n], Counts(names), items[n].def);
        assert NamedAlike(ProtoOf(items[n]), names);
      } else {
        ExternDeclares(m, items[..n], items[n].proto);
      }
    }
  }

  lemma AgreeByNames(items: seq<Item>, names: map<string, seq<string>>)
    requires AgreeOnNames(items, names) && forall i :: 0 <= i < |items| ==> ItemPlain(items[i])
    ensures Agree(items, Counts(names))
  {
    hide ItemPlain;
    forall i | 0 <= i < |items|
      ensures Follows(items[i], Counts(names))
    {
      assert NamedAlike(ProtoOf(items[i]), names);
    }
  }
}
