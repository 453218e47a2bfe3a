/** The Kaleidoscope abstract syntax shared by the parser and the code generator. */
module Ast {
  import opened Prelude

  /** One `name [= init]` entry of a `var` list. */
  datatype Binding = Binding(name: string, init: Option<Expr>)

  /** Expressions.  A literal keeps its text: turning it into a double is `strtod`'s business. */
  datatype Expr =
    | Number(text: string)
    | Variable(name: string)
    | VarIn(bindings: seq<Binding>, body: Expr)
    | Unary(op: char, operand: Expr)
    | Binary(op: char, lhs: Expr, rhs: Expr)
    | If(cond: Expr, thn: Expr, els: Expr)
    | For(name: string, start: Expr, end: Expr, step: Option<Expr>, body: Expr)
    | Call(callee: string, args: seq<Expr>)

  datatype Prototype = Prototype(name: string, params: seq<string>, isOperator: bool, precedence: nat)

  datatype Definition = Definition(proto: Prototype, body: Expr)

  predicate Distinct(names: seq<string>) {
    forall i, j :: 0 <= i < j < |names| ==> names[i] != names[j]
  }

  function Names(bs: seq<Binding>): (ns: seq<string>)
    ensures |ns| == |bs| && forall i :: 0 <= i < |bs| ==> ns[i] == bs[i].name
  {
    seq(|bs|, i requires 0 <= i < |bs| => bs[i].name)
  }

  /** No `var` list anywhere in the expression binds the same name twice. */
  predicate NoRepeats(e: Expr) {
    match e
    case Number(_) => true
    case Variable(_) => true
    case VarIn(bs, body) =>
      && Distinct(Names(bs))
      && (forall i :: 0 <= i < |bs| && bs[i].init.Some? ==> NoRepeats(bs[i].init.value))
      && NoRepeats(body)
    case Unary(_, a) => NoRepeats(a)
    case Binary(_, a, b) => NoRepeats(a) && NoRepeats(b)
    case If(c, a, b) => NoRepeats(c) && NoRepeats(a) && NoRepeats(b)
    case For(_, start, end, step, body) =>
      NoRepeats(start) && NoRepeats(end) && (step.Some? ==> NoRepeats(step.value)) && NoRepeats(body)
    case Call(_, args) => forall i :: 0 <= i < |args| ==> NoRepeats(args[i])
  }

  /** Operators are no letters or digits: those make up names. */
  predicate Symbol(c: char) { !('A' <= c <= 'Z') && !('a' <= c <= 'z') && !('0' <= c <= '9') }

  predicate SymbolOps(e: Expr) {
    match e
    case Number(_) => true
    case Variable(_) => true
    case VarIn(bs, body) =>
      (forall i :: 0 <= i < |bs| && bs[i].init.Some? ==> SymbolOps(bs[i].init.value)) && SymbolOps(body)
    case Unary(op, a) => Symbol(op) && SymbolOps(a)
    case Binary(op, a, b) => Symbol(op) && SymbolOps(a) && SymbolOps(b)
    case If(c, a, b) => SymbolOps(c) && SymbolOps(a) && SymbolOps(b)
    case For(_, start, end, step, body) =>
      SymbolOps(start) && SymbolOps(end) && (step.Some? ==> SymbolOps(step.value)) && SymbolOps(body)
    case Call(_, args) => forall i :: 0 <= i < |args| ==> SymbolOps(args[i])
  }

  function UnaryName(op: char): string { "unary" + [op] }

  function BinaryName(op: char): string { "binary" + [op] }
}
