/**
 The two arithmetic rewrites: what `MBAAdd` puts in place of an 8-bit addition and `MBASub` in place of
 a subtraction of any width, and why both compute the same value.
 */
module Mba {
  import opened Prelude
  import opened Ssa

  // ----- Arithmetic modulo a power of two -----

  function Pow2(w: nat): (p: nat)
    ensures p > 0
  {
    if w == 0 then 1 else 2 * Pow2(w - 1)
  }

  /** Bitwise operations on the lowest `w` bits. */
  function BitXor(w: nat, a: int, b: int): nat {
    if w == 0 then 0 else (a % 2 + b % 2) % 2 + 2 * BitXor(w - 1, a / 2, b / 2)
  }

  function BitAnd(w: nat, a: int, b: int): nat {
    if w == 0 then 0 else (a % 2) * (b % 2) + 2 * BitAnd(w - 1, a / 2, b / 2)
  }

  /** The value that fits in `w` bits. */
  function Wrap(w: nat, x: int): int { x % Pow2(w) }

  function IntArith(k: Kind, w: nat, a: int, b: int): int {
    match k
    case Add => Wrap(w, a + b)
    case Sub => Wrap(w, a - b)
    case Mul => Wrap(w, a * b)
    case Xor => BitXor(w, a, b)
    case And => BitAnd(w, a, b)
  }

  /** The number that the lowest `w` bits make. */
  function Low(w: nat, a: int): nat {
    if w == 0 then 0 else a % 2 + 2 * Low(w - 1, a / 2)
  }

  lemma AtLeast(d: int, p: int)
    requires p > 0
    ensures d >= 1 ==> d * p >= p
    ensures d <= -1 ==> d * p <= -p
  {
    assert (d - 1) * p == d * p - p;
    assert (d + 1) * p == d * p + p;
  }

  lemma Remainder(a: int, q: int, p: int, r: int)
    requires p > 0 && 0 <= r < p && a == q * p + r
    ensures a % p == r
  {
    var d := a / p - q;
    AtLeast(d, p);
    assert d * p == (a / p) * p - q * p;
  }

  /** The lowest bits are the remainder. */
  lemma {:induction false} LowIsRemainder(w: nat, a: int)
    ensures Low(w, a) == a % Pow2(w)
  {
    if w > 0 {
      var p := Pow2(w - 1);
      LowIsRemainder(w - 1, a / 2);
      var q, r := (a / 2) / p, (a / 2) % p;
      Doubled(q, p);
      Remainder(a, q, 2 * p, 2 * r + a % 2);
    }
  }

  lemma Doubled(q: int, p: int)
    ensures 2 * (q * p) == q * (2 * p)
  {
  }

  lemma BitSum(x: int, y: int)
    requires 0 <= x < 2 && 0 <= y < 2
    ensures (x + y) % 2 + 2 * (x * y) == x + y
  {
  }

  /** Carry-less sum plus twice the carries is the sum. */
  lemma {:induction false} XorPlusCarries(w: nat, a: int, b: int)
    ensures BitXor(w, a, b) + 2 * BitAnd(w, a, b) == Low(w, a) + Low(w, b)
  {
    if w > 0 {
      XorPlusCarries(w - 1, a / 2, b / 2);
      BitSum(a % 2, b % 2);
    }
  }

  lemma Complement(b: int)
    ensures (-1 - b) / 2 == -1 - b / 2 && (-1 - b) % 2 == 1 - b % 2 && (b % 2 + 1) % 2 == 1 - b % 2
    ensures (-1) / 2 == -1 && (-1) % 2 == 1
  {
    var q, r := b / 2, b % 2;
    assert b == 2 * q + r;
    assert -1 - b == 2 * (-1 - q) + (1 - r);
  }

  /** Exclusive or with all ones is one's complement. */
  lemma {:induction false} XorOnes(w: nat, b: int)
    ensures BitXor(w, b, -1) == Low(w, -1 - b)
  {
    if w > 0 {
      XorOnes(w - 1, b / 2);
      Complement(b);
      assert BitXor(w, b, -1) == (b % 2 + (-1) % 2) % 2 + 2 * BitXor(w - 1, b / 2, (-1) / 2);
    }
  }

  lemma ModStep(x: int, y: int, p: int)
    requires p > 0
    ensures (x % p + y) % p == (x + y) % p
  {
    var q, r := (x + y) / p, (x + y) % p;
    assert (q - x / p) * p == q * p - (x / p) * p;
    Remainder(x % p + y, q - x / p, p, r);
  }

  lemma WrapStep(w: nat, x: int, y: int)
    ensures Wrap(w, Wrap(w, x) + y) == Wrap(w, x + y) && Wrap(w, y + Wrap(w, x)) == Wrap(w, y + x)
  {
    ModStep(x, y, Pow2(w));
  }

  /** `a + ~b + 1` is `a - b` at every width. */
  lemma SubIdentity(w: nat, a: int, b: int)
    ensures IntArith(Add, w, IntArith(Add, w, a, IntArith(Xor, w, b, -1)), 1) == IntArith(Sub, w, a, b)
  {
    hide BitXor, Low, Pow2, Wrap;
    XorOnes(w, b);
    assert Low(w, -1 - b) == Wrap(w, -1 - b) by { LowWraps(w, -1 - b); }
    WrapStep(w, -1 - b, a);
    WrapStep(w, a + (-1 - b), 1);
    assert a + (-1 - b) + 1 == a - b;
  }

  lemma LowWraps(w: nat, x: int)
    ensures Low(w, x) == Wrap(w, x)
  {
    LowIsRemainder(w, x);
  }

  /** `(39 x + 23) * 151 + 111` is `x` modulo 256, and `x` is the sum. */
  lemma AddIdentity(a: int, b: int)
    ensures var x := IntArith(Add, 8, IntArith(Xor, 8, a, b), IntArith(Mul, 8, 2, IntArith(And, 8, a, b)));
            var y := IntArith(Add, 8, IntArith(Mul, 8, x, 39), 23);
            IntArith(Add, 8, IntArith(Mul, 8, y, 151), 111) == IntArith(Add, 8, a, b)
  {
    Pow2Eight();
    var c, d := BitXor(8, a, b), BitAnd(8, a, b);
    XorPlusCarries(8, a, b);
    LowIsRemainder(8, a);
    LowIsRemainder(8, b);
    Combined(c, d, a, b);
    Affine((a + b) % 256);
  }

  lemma Combined(c: int, d: int, a: int, b: int)
    requires c + 2 * d == a % 256 + b % 256
    ensures (c + (2 * d) % 256) % 256 == (a + b) % 256
  {
    var q := (a + b) / 256 - a / 256 - b / 256 - (2 * d) / 256;
    Remainder(c + (2 * d) % 256, q, 256, (a + b) % 256);
  }

  lemma Pow2Eight()
    ensures Pow2(8) == 256
  {
    assert Pow2(2) == 4;
    assert Pow2(4) == 16;
    assert Pow2(6) == 64;
  }

  lemma Affine(x: int)
    requires 0 <= x < 256
    ensures ((((x * 39) % 256 + 23) % 256 * 151) % 256 + 111) % 256 == x
  {
    var m1 := x * 39;
    var q1, r1 := m1 / 256, m1 % 256;
    assert m1 == 256 * q1 + r1;
    var m2 := r1 + 23;
    var q2, r2 := m2 / 256, m2 % 256;
    assert m2 == 256 * q2 + r2;
    var m3 := r2 * 151;
    var q3, r3 := m3 / 256, m3 % 256;
    assert m3 == 256 * q3 + r3;
    Remainder(r3 + 111, 23 * x + 14 - 151 * q1 - 151 * q2 - q3, 256, x);
  }

  // ----- What is inserted -----

  datatype Pass = AddPass | SubPass

  predicate Matches(pass: Pass, i: Instr) {
    && i.ty.Int? && |i.args| == 2 && i.op.Bin?
    && match pass
       case AddPass => i.op.kind.Add? && i.op.width == 8
       case SubPass => i.op.kind.Sub?
  }

  function BinInstr(dst: nat, k: Kind, w: nat, a: Operand, b: Operand): Instr {
    Instr(Int, dst, Bin(k, w), [a, b])
  }

  /** The instructions inserted before a matching one, with results in `base` and up; the last one replaces it. */
  function Recipe(pass: Pass, i: Instr, base: nat): (r: seq<Instr>)
    requires Matches(pass, i)
    ensures |r| == Length(pass)
  {
    var a, b, w := i.args[0], i.args[1], i.op.width;
    match pass
    case AddPass => [
      BinInstr(base, Xor, w, a, b),
      BinInstr(base + 1, And, w, a, b),
      BinInstr(base + 2, Mul, w, Const(2), Reg(base + 1)),
      BinInstr(base + 3, Add, w, Reg(base), Reg(base + 2)),
      BinInstr(base + 4, Mul, w, Reg(base + 3), Const(39)),
      BinInstr(base + 5, Add, w, Reg(base + 4), Const(23)),
      BinInstr(base + 6, Mul, w, Reg(base + 5), Const(151)),
      BinInstr(base + 7, Add, w, Reg(base + 6), Const(111))]
    case SubPass => [
      BinInstr(base, Xor, w, b, Const(-1)),
      BinInstr(base + 1, Add, w, a, Reg(base)),
      BinInstr(base + 2, Add, w, Reg(base + 1), Const(1))]
  }

  function Length(pass: Pass): nat { if pass.AddPass? then 8 else 3 }

  ghost predicate MachineArith(sem: Sem) {
    forall k: Kind, w: nat, a: int, b: int :: sem.arith(k, w, a, b) == IntArith(k, w, a, b)
  }

  /** A binary instruction whose operands are known. */
  lemma BinRuns(sem: Sem, i: Instr, l: Local, a: int, b: int)
    requires i.ty.Int? && i.op.Bin? && |i.args| == 2 && ValueOf(l.regs, i.args[0]) == Some(a)
             && ValueOf(l.regs, i.args[1]) == Some(b)
    ensures ValuesOf(l.regs, i.args) == Some([a, b])
    ensures Exec(sem, i, l) == Some(Local(l.regs[i.dst := sem.arith(i.op.kind, i.op.width, a, b)], l.trace))
  {
    assert i.args == [i.args[0], i.args[1]];
    assert i.args[1..] == [i.args[1]];
    assert i.args[1..][1..] == [];
    assert ValuesOf(l.regs, []) == Some([]);
    assert [b] + [] == [b];
    assert ValuesOf(l.regs, i.args[1..]) == Some([b]);
    assert [a] + [b] == [a, b];
    assert l.trace + [] == l.trace;
  }
}
