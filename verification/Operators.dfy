/** What the binary operators are, bit by bit and in integers, and that the code computes it. */
module Operators {
  import opened Machine
  import opened Arith
  import opened Runtime
  import opened CodeBits
  import opened Engine
  import opened Source
  import opened CodeGen
  import opened ExprProof
  import opened ExprCorrect

  /** q is the quotient of x by y without its fraction. */
  predicate TowardZero(x: int, y: int, q: int) {
    var r := x - y * q;
    (if y > 0 then -y < r < y else y < r < -y) && (x >= 0 ==> r >= 0) && (x <= 0 ==> r <= 0)
  }

  predicate Anded(a: Word, b: Word, w: Word) { forall k :: 0 <= k < 16 ==> (BitAt(w, k) == 1 <==> BitAt(a, k) == 1 && BitAt(b, k) == 1) }

  predicate Ored(a: Word, b: Word, w: Word) { forall k :: 0 <= k < 16 ==> (BitAt(w, k) == 1 <==> BitAt(a, k) == 1 || BitAt(b, k) == 1) }

  predicate Exored(a: Word, b: Word, w: Word) { forall k :: 0 <= k < 16 ==> (BitAt(w, k) == 1 <==> (BitAt(a, k) == 1) != (BitAt(b, k) == 1)) }

  /** a times two to the n, or with n below zero a divided and rounded down. */
  predicate ShiftedLeft(a: int, n: int, w: Word) {
    w == (if n >= 0 then a * Pow2(n) else a / Pow2(-n)) % 0x1_0000
  }

  /** w is the result of the operator on a and b.  Division by zero has what the routines leave. */
  ghost predicate Denotes(op: BinOp, a: Word, b: Word, w: Word) {
    match op
    case Add => w == (a + b) % 0x1_0000
    case Sub => w == (a - b) % 0x1_0000
    case Mul => w == (a * b) % 0x1_0000
    case UMul => w == (a * b) % 0x1_0000
    case BAnd => Anded(a, b, w)
    case BOr => Ored(a, b, w)
    case EOr => Exored(a, b, w)
    case UDiv => if b == 0 then w == 0xffff else b * w <= a < b * w + b
    case UMod => if b == 0 then w == a else w < b && (a - w) % b == 0
    case Div =>
      if b == 0 then w == (if Signed(a) < 0 then 1 else 0xffff)
      else exists q :: TowardZero(Signed(a), Signed(b), q) && w == q % 0x1_0000
    case Mod =>
      if b == 0 then w == a
      else exists q :: TowardZero(Signed(a), Signed(b), q) && w == (Signed(a) - Signed(b) * q) % 0x1_0000
    case LShift => ShiftedLeft(if Signed(b) >= 0 then a else Signed(a), Signed(b), w)
    case ULShift => ShiftedLeft(a, Signed(b), w)
    case RShift => ShiftedLeft(if Signed(b) >= 0 then Signed(a) else a, -Signed(b), w)
    case URShift => ShiftedLeft(a, -Signed(b), w)
  }

  lemma QuotientTruncates(x: int, y: int)
    requires y != 0
    ensures TowardZero(x, y, Quotient(x, y)) && Remainder(x, y) == x - y * Quotient(x, y)
  {
    hide Quotient; hide Remainder; hide TowardZero;
    var d, q, r := Magnitudes(x, y);
    Signs(x, y, d, q);
    Truncates(x, y, Quotient(x, y), d * q, r);
  }

  lemma Magnitudes(x: int, y: int) returns (d: int, q: int, r: int)
    requires y != 0
    ensures d == (if y < 0 then -y else y) && 0 <= r < d && (if x < 0 then -x else x) == d * q + r
    ensures Quotient(x, y) == (if (x < 0) == (y < 0) then q else -q) && Remainder(x, y) == if x < 0 then -r else r
  {
    var p: int := if x < 0 then -x else x;
    d := if y < 0 then -y else y;
    q, r := p / d, p % d;
  }

  lemma Signs(x: int, y: int, d: int, q: int)
    requires d == if y < 0 then -y else y
    ensures y * (if (x < 0) == (y < 0) then q else -q) == if x < 0 then -(d * q) else d * q
  {}

  lemma Truncates(x: int, y: int, q: int, m: int, r: int)
    requires y != 0 && 0 <= r < (if y < 0 then -y else y)
    requires y * q == (if x < 0 then -m else m) && (if x < 0 then -x else x) == m + r
    ensures TowardZero(x, y, q) && x - y * q == if x < 0 then -r else r
  {}

  /** Bit k of a bitwise operation. */
  lemma LogicBit(op: BinOp, a: Word, b: Word, k: nat)
    requires (op.BAnd? || op.BOr? || op.EOr?) && k < 16
    ensures BitAt(Apply(op, a, b), k) == Bit(BitsOf(op), BitAt(a, k), BitAt(b, k)) && 0 <= BitAt(a, k) <= 1 && 0 <= BitAt(b, k) <= 1
  {
    hide Bitwise; hide BitAt; hide Bit; hide BitsOf;
    BitOf(BitsOf(op), a, b, 16, k);
    BitIsBit(a, k);
    BitIsBit(b, k);
  }

  lemma LogicIs(op: BinOp, a: Word, b: Word)
    requires op.BAnd? || op.BOr? || op.EOr?
    ensures Denotes(op, a, b, Apply(op, a, b))
  {
    hide Apply; hide BitAt;
    forall k | 0 <= k < 16
      ensures BitAt(Apply(op, a, b), k) == Bit(BitsOf(op), BitAt(a, k), BitAt(b, k)) && 0 <= BitAt(a, k) <= 1 && 0 <= BitAt(b, k) <= 1
    {
      LogicBit(op, a, b, k);
    }
  }

  lemma DivisionIs(op: BinOp, a: Word, b: Word)
    requires op.Div? || op.Mod? || op.UDiv? || op.UMod?
    ensures Denotes(op, a, b, Apply(op, a, b))
  {
    hide Quotient; hide Remainder; hide TowardZero;
    if b != 0 {
      if op.Div? || op.Mod? { QuotientTruncates(Signed(a), Signed(b)); }
      else {
        Parts(a, b);
        if op.UMod? { Rest(a, b); }
      }
    }
  }

  lemma Parts(a: nat, b: nat)
    requires b > 0
    ensures b * (a / b) <= a < b * (a / b) + b
  {}

  lemma Rest(a: nat, b: nat)
    requires b > 0
    ensures (a - a % b) % b == 0
  {
    DivUnique(a - a % b, b, a / b, 0);
  }

  lemma ShiftsAre(op: BinOp, a: Word, b: Word)
    requires op.LShift? || op.ULShift? || op.RShift? || op.URShift?
    ensures Denotes(op, a, b, Apply(op, a, b))
  {
    hide Pow2; hide Signed; hide ShiftRight; hide ShiftLeft; hide ShiftArith; hide Quotient; hide Remainder;
    var n := Signed(b);
    ShiftIs(a, if n >= 0 then n else -n);
    Counts(b);
  }

  lemma Counts(b: Word)
    ensures (Signed(b) >= 0 ==> Signed(b) == b) && Pow2(0) == 1
  {}

  lemma ShiftIs(a: Word, n: nat)
    ensures ShiftLeft(a, n) == a * Pow2(n) % 0x1_0000
    ensures ShiftRight(a, n) == a / Pow2(n) % 0x1_0000
    ensures ShiftArith(a, n) == Signed(a) / Pow2(n) % 0x1_0000
  {
    hide Pow2;
    Floor(a, Pow2(n));
  }

  /** The value that the meaning of expressions gives to an operator is that. */
  lemma OperatorsMean(op: BinOp, a: Word, b: Word)
    ensures Denotes(op, a, b, Apply(op, a, b))
  {
    hide Denotes; hide Apply;
    match op
    case BAnd => LogicIs(op, a, b);
    case BOr => LogicIs(op, a, b);
    case EOr => LogicIs(op, a, b);
    case Div => DivisionIs(op, a, b);
    case Mod => DivisionIs(op, a, b);
    case UDiv => DivisionIs(op, a, b);
    case UMod => DivisionIs(op, a, b);
    case LShift => ShiftsAre(op, a, b);
    case ULShift => ShiftsAre(op, a, b);
    case RShift => ShiftsAre(op, a, b);
    case URShift => ShiftsAre(op, a, b);
    case Add => SumsAre(op, a, b);
    case Sub => SumsAre(op, a, b);
    case Mul => SumsAre(op, a, b);
    case UMul => SumsAre(op, a, b);
  }

  lemma SumsAre(op: BinOp, a: Word, b: Word)
    requires op.Add? || op.Sub? || op.Mul? || op.UMul?
    ensures Denotes(op, a, b, Apply(op, a, b))
  {}

  // ---------- compiled ----------

  /** The operands' values, in the order in which they are computed. */
  function Operands(op: BinOp, l: Expr, r: Expr, cx: Ctx, m: Memory): (Word, Word)
    requires EvalBin(op, l, r, cx, m).Val?
  {
    if Simple(op) && Late(r) then (Eval(l, cx, m).v, Eval(r, cx, Eval(l, cx, m).m).v)
    else (Eval(l, cx, Eval(r, cx, m).m).v, Eval(r, cx, m).v)
  }

  /** The old value of the lvalue, and the value of the right-hand side. */
  function Assigned(op: BinOp, lv: LVal, e: Expr, byte: bool, cx: Ctx, m: Memory): (Word, Word)
    requires EvalAssOp(lv, e, op, byte, cx, m).Val?
  {
    if Simple(op) && Late(e) then
      var a := EvalL(lv, cx, m);
      (Load(cx, a.m, a.v, byte).v, Eval(e, cx, a.m).v)
    else
      var a := EvalL(lv, cx, Eval(e, cx, m).m);
      (Load(cx, a.m, a.v, byte).v, Eval(e, cx, m).v)
  }

  lemma OperandsMeant(op: BinOp, l: Expr, r: Expr, cx: Ctx, m: Memory)
    requires EvalBin(op, l, r, cx, m).Val?
    ensures var (x, y) := Operands(op, l, r, cx, m);
            EvalBin(op, l, r, cx, m).v == Apply(op, x, y)
  {
    hide Eval; hide Apply; hide Late;
  }

  lemma AssignedMeant(op: BinOp, lv: LVal, e: Expr, byte: bool, cx: Ctx, m: Memory)
    requires EvalAssOp(lv, e, op, byte, cx, m).Val?
    ensures var (x, y) := Assigned(op, lv, e, byte, cx, m);
            EvalAssOp(lv, e, op, byte, cx, m).v == Apply(op, x, y)
  {
    hide Eval; hide EvalL; hide Apply; hide Late; hide WriteWord; hide ReadWord;
  }

  /** The code of a binary operation leaves in D what the operator is of its operands. */
  lemma OperatorCode(op: BinOp, l: Expr, r: Expr, n: nat, k: bool, cx: Ctx, st: Cpu, m: Memory)
    requires Sound(Bin(op, l, r)) && Ready(cx, st, m, Need(Bin(op, l, r))) && EvalBin(op, l, r, cx, m).Val?
    ensures var (x, y) := Operands(op, l, r, cx, m);
            var o := Exec(GenE(Bin(op, l, r), n, k).code, st);
            o.Fall? && Denotes(op, x, y, o.st.d)
  {
    hide Exec; hide Agree; hide Kept; hide Eval; hide EvalBin; hide GenE; hide Sound; hide Need; hide Ready; hide After;
    hide Denotes; hide Apply; hide Operands;
    CorrectE(Bin(op, l, r), n, k, cx, st, m);
    BinValue(op, l, r, cx, m);
    OperandsMeant(op, l, r, cx, m);
    var (x, y) := Operands(op, l, r, cx, m);
    OperatorsMean(op, x, y);
  }

  /** So does the code of a compound assignment, of the old value and the right-hand side. */
  lemma AssignedCode(op: BinOp, lv: LVal, e: Expr, byte: bool, n: nat, k: bool, cx: Ctx, st: Cpu, m: Memory)
    requires Sound(AssOp(lv, e, op, byte)) && Ready(cx, st, m, Need(AssOp(lv, e, op, byte))) && EvalAssOp(lv, e, op, byte, cx, m).Val?
    ensures var (x, y) := Assigned(op, lv, e, byte, cx, m);
            var o := Exec(GenE(AssOp(lv, e, op, byte), n, k).code, st);
            o.Fall? && Denotes(op, x, y, o.st.d)
  {
    hide Exec; hide Agree; hide Kept; hide Eval; hide EvalAssOp; hide GenE; hide Sound; hide Need; hide Ready; hide After;
    hide Denotes; hide Apply; hide Assigned;
    CorrectE(AssOp(lv, e, op, byte), n, k, cx, st, m);
    AssOpValue(lv, e, op, byte, cx, m);
    AssignedMeant(op, lv, e, byte, cx, m);
    var (x, y) := Assigned(op, lv, e, byte, cx, m);
    OperatorsMean(op, x, y);
  }

  lemma AssOpValue(lv: LVal, e: Expr, op: BinOp, byte: bool, cx: Ctx, m: Memory)
    ensures Eval(AssOp(lv, e, op, byte), cx, m) == EvalAssOp(lv, e, op, byte, cx, m)
  {}
}
