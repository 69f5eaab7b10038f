/**
  `binop`: how the parser builds a binary operation.  It folds constants, swaps operands of
  commutative operators, scales pointer arithmetic and drops multiplications by one.
 */
module Binop {
  import opened Machine
  import opened Arith
  import opened Runtime
  import opened Source
  import opened MulProof
  import opened ExprCorrect
  import opened Operators

  /** Pointers carry what they point to, for comparison, and its size. */
  datatype Ty = Int | Char | Unsigned | Ptr(target: nat, size: nat) | OtherTy

  predicate Integral(t: Ty) { t.Int? || t.Char? || t.Unsigned? }

  /** The operators that the parser passes; unsigned variants are chosen here. */
  predicate Plain(op: BinOp) { Simple(op) || op.Mul? || op.Div? || op.Mod? || op.LShift? || op.RShift? }

  function AsUnsigned(op: BinOp): BinOp {
    if op.Mul? then UMul else if op.Div? then UDiv else if op.Mod? then UMod
    else if op.LShift? then ULShift else if op.RShift? then URShift else op
  }

  datatype Built = Ok(e: Expr, ty: Ty) | TypeError | DivideByZero

  predicate Commutes(op: BinOp) { op.Add? || op.Mul? || op.BOr? || op.EOr? || op.BAnd? }

  /** Integer types combine to the second one when the first is INT. */
  function Joined(t1: Ty, t2: Ty): Ty { if t1.Int? then t2 else t1 }

  /** Two constants.  Host integers are unbounded here, but of a bitwise result only the low
      16 bits are. */
  function Folded(op: BinOp, a: int, b: int, t1: Ty, t2: Ty): Built
    requires Plain(op)
  {
    if op.BOr? || op.EOr? || op.BAnd? then Ok(Const(Bitwise16(BitsOf(op), Wrap(a), Wrap(b))), Int)
    else if op.Add? then
      if Integral(t1) then
        if Integral(t2) then Ok(Const(a + b), Int)
        else if !t2.Ptr? then TypeError else Ok(Const(t2.size * a + b), t2)
      else if !t1.Ptr? then TypeError else Ok(Const(a + t1.size * b), t1)
    else if op.Sub? then
      if Integral(t1) then Ok(Const(a - b), Int)
      else if !t1.Ptr? then TypeError else Ok(Const(a - t1.size * b), t1)
    else if op.Mul? then Ok(Const(a * b), Int)
    else if op.Div? then (if b == 0 then DivideByZero else Ok(Const(Quotient(a, b)), Int))
    else if op.Mod? then (if b == 0 then DivideByZero else Ok(Const(Remainder(a, b)), Int))
    else if op.RShift? then Ok(Const(if b >= 0 then a / Pow2(b) else a), Int)
    else Ok(Const(if b >= 0 then a * Pow2(b) else a), Int)
  }

  predicate Swaps(op: BinOp, e1: Expr, e2: Expr) {
    Commutes(op) && (e1.Const? || (!e2.Const? && e1.RVar?))
  }

  function Moved(v: Var, c: int): Var {
    match v
    case GVar(n) => GVar(n + c)
    case LVar(n) => LVar(n + c)
  }

  function Binop(op: BinOp, e1: Expr, e2: Expr, t1: Ty, t2: Ty): Built
    requires Plain(op)
  {
    if e1.Const? && e2.Const? then Folded(op, e1.c, e2.c, t1, t2)
    else if Swaps(op, e1, e2) then Arranged(op, e2, e1, t2, t1)
    else Arranged(op, e1, e2, t1, t2)
  }

  /** Multiplication by a size, and division by one. */
  function Scaled(op: BinOp, e: Expr, size: nat, t: Ty): Built
    requires op.Mul? || op.Div?
  {
    var c := Const(size);
    if e.Const? then Folded(op, e.c, size, t, Int)
    else Other(op, e, c, t, Int)
  }

  /** After the operands are in order. */
  function Arranged(op: BinOp, e1: Expr, e2: Expr, t1: Ty, t2: Ty): Built
    requires Plain(op)
  {
    if op.Add? then
      if Integral(t1) then
        if Integral(t2) then Ok(Bin(Add, e1, e2), Joined(t1, t2))
        else if !t2.Ptr? then TypeError
        else match Scaled(Mul, e1, t2.size, t1)
          case Ok(e, _) => Ok(Bin(Add, e, e2), t2)
          case f => f
      else if !t1.Ptr? || !Integral(t2) then TypeError
      else match Scaled(Mul, e2, t1.size, t2)
        case Ok(e, _) =>
          if e1.Address? && e.Const? then Ok(Address(Moved(e1.v, e.c)), t1) else Ok(Bin(Add, e1, e), t1)
        case f => f
    else if op.Sub? then
      if Integral(t1) then
        if !Integral(t2) then TypeError else Ok(Bin(Sub, e1, e2), Joined(t1, t2))
      else if !t1.Ptr? then TypeError
      else if Integral(t2) then
        match Scaled(Mul, e2, t1.size, t2)
        case Ok(e, _) => Ok(Bin(Sub, e1, e), t1)
        case f => f
      else if !t2.Ptr? || t1 != t2 then TypeError
      else match Scaled(Div, Bin(Sub, e1, e2), t1.size, Unsigned)
        case Ok(e, _) => Ok(e, Int)
        case f => f
    else Other(op, e1, e2, t1, t2)
  }

  /** Everything but addition and subtraction. */
  function Other(op: BinOp, e1: Expr, e2: Expr, t1: Ty, t2: Ty): Built {
    if !Integral(t1) || !Integral(t2) then TypeError else
    var t := Joined(t1, t2);
    if (op.Mul? || op.Div?) && e2.Const? && e2.c == 1 then Ok(e1, t)
    else Ok(Bin(if t.Unsigned? then AsUnsigned(op) else op, e1, e2), t)
  }

  // ---------- what the operation means ----------

  /** Pointer arithmetic counts in units of what is pointed to. */
  function Meant(op: BinOp, t1: Ty, t2: Ty, v1: Word, v2: Word): Word {
    if op.Add? && t2.Ptr? then Wrap(t2.size * v1 + v2)
    else if op.Add? && t1.Ptr? then Wrap(v1 + t1.size * v2)
    else if op.Sub? && t1.Ptr? && t2.Ptr? then UDivide(Wrap(v1 - v2), Wrap(t1.size))
    else if op.Sub? && t1.Ptr? then Wrap(v1 - t1.size * v2)
    else Apply(if Joined(t1, t2).Unsigned? then AsUnsigned(op) else op, v1, v2)
  }

  /** Evaluating the operand changes nothing. */
  predicate Has(e: Expr, cx: Ctx, m: Memory, v: Word) { Eval(e, cx, m) == Val(v, m) }

  predicate InRange(c: int) { -0x8000 <= c < 0x8000 }

  /** Foldings that the host's integers do as the target's would: quotients, remainders and
      right shifts of constants that the target's type holds, by such constants, shifts by less
      than the host's 32 bits, and no difference of pointers. */
  predicate FoldsRight(op: BinOp, e1: Expr, e2: Expr, t1: Ty, t2: Ty) {
    e1.Const? && e2.Const? ==>
      && (op.Div? || op.Mod? ==> Fits(Joined(t1, t2), e1.c) && DivisorFits(op, Joined(t1, t2), e2.c))
      && (op.RShift? ==> Fits(Joined(t1, t2), e1.c) && 0 <= e2.c < 32)
      && (op.LShift? ==> 0 <= e2.c < 32)
      && (op.Sub? ==> Integral(t1) || (t1.Ptr? && Integral(t2)))
  }

  /** Constants that the target's type holds. */
  predicate Fits(t: Ty, c: int) { if t.Unsigned? then 0 <= c < 0x1_0000 else InRange(c) }

  // ---------- values ----------

  lemma HasConst(c: int, cx: Ctx, m: Memory)
    ensures Has(Const(c), cx, m, Wrap(c))
  {
    ConstValue(c, cx, m);
  }

  lemma HasBin(op: BinOp, e1: Expr, e2: Expr, cx: Ctx, m: Memory, v1: Word, v2: Word)
    requires Has(e1, cx, m, v1) && Has(e2, cx, m, v2)
    ensures Has(Bin(op, e1, e2), cx, m, Apply(op, v1, v2))
  {
    hide Eval; hide Apply;
    BinValue(op, e1, e2, cx, m);
  }

  lemma HasMoved(v: Var, c: int, cx: Ctx, m: Memory, a: Word)
    requires Has(Address(v), cx, m, a)
    ensures Has(Address(Moved(v, c)), cx, m, Wrap(a + c))
  {
    hide Eval; hide Wrap;
    AddressValue(v, cx, m);
    AddressValue(Moved(v, c), cx, m);
    MovedAddress(v, c, cx);
  }

  lemma MovedAddress(v: Var, c: int, cx: Ctx)
    ensures AddrOf(cx, Moved(v, c)) == Wrap(AddrOf(cx, v) + c)
  {}

  lemma WrapShift(x: int, k: int)
    ensures Wrap(x + 0x1_0000 * k) == Wrap(x)
  {
    DivUnique(x + 0x1_0000 * k, 0x1_0000, x / 0x1_0000 + k, x % 0x1_0000);
  }

  lemma WrapParts(a: int)
    ensures a == 0x1_0000 * (a / 0x1_0000) + Wrap(a)
  {}

  lemma AddWraps(a: int, b: int)
    ensures Wrap(Wrap(a) + b) == Wrap(a + b) && Wrap(a + Wrap(b)) == Wrap(a + b) && Wrap(Wrap(a) + Wrap(b)) == Wrap(a + b)
    ensures Wrap(a - Wrap(b)) == Wrap(a - b) && Wrap(Wrap(a) - Wrap(b)) == Wrap(a - b) && Wrap(Wrap(a) - b) == Wrap(a - b)
  {
    hide Wrap;
    WrapParts(a);
    WrapParts(b);
    WrapShift(Wrap(a) + b, a / 0x1_0000);
    WrapShift(a + Wrap(b), b / 0x1_0000);
    WrapShift(Wrap(a) + Wrap(b), b / 0x1_0000);
    WrapShift(a - Wrap(b), -(b / 0x1_0000));
    WrapShift(Wrap(a) - Wrap(b), -(b / 0x1_0000));
    WrapShift(Wrap(a) - b, a / 0x1_0000);
  }

  /** a * b modulo 2^16 depends on the low 16 bits only. */
  lemma MulWraps(a: int, b: int)
    ensures Wrap(a * Wrap(b)) == Wrap(a * b) && Wrap(Wrap(a) * Wrap(b)) == Wrap(a * b)
  {
    WrapScale(a, b);
    WrapScale(Wrap(b), a);
    assert Wrap(b) * Wrap(a) == Wrap(a) * Wrap(b) && Wrap(b) * a == a * Wrap(b);
  }

  lemma ApplyIs(op: BinOp, v: Word, w: Word)
    ensures op.Add? ==> Apply(op, v, w) == Wrap(v + w)
    ensures op.Sub? ==> Apply(op, v, w) == Wrap(v - w)
    ensures op.Mul? || op.UMul? ==> Apply(op, v, w) == Wrap(v * w)
    ensures op.UDiv? ==> Apply(op, v, w) == UDivide(v, w)
  {
    hide Wrap; hide ShiftArith; hide ShiftLeft; hide ShiftRight;
  }

  /** An operand times a size. */
  lemma ScaledValue(e: Expr, size: nat, t: Ty, cx: Ctx, m: Memory, v: Word)
    requires Has(e, cx, m, v) && Scaled(Mul, e, size, t).Ok?
    ensures Has(Scaled(Mul, e, size, t).e, cx, m, Wrap(size * v))
  {
    hide Eval; hide Wrap; hide Apply;
    if e.Const? {
      ConstValue(e.c, cx, m);
      HasConst(e.c * size, cx, m);
      MulWraps(size, e.c);
      assert e.c * size == size * e.c;
    } else {
      HasConst(size, cx, m);
      HasBin(Mul, e, Const(size), cx, m, v, Wrap(size));
      HasBin(UMul, e, Const(size), cx, m, v, Wrap(size));
      ApplyIs(Mul, v, Wrap(size));
      ApplyIs(UMul, v, Wrap(size));
      MulWraps(v, size);
      WrapSmall(v);
      assert v * size == size * v;
    }
  }

  lemma OtherValue(op: BinOp, e1: Expr, e2: Expr, t1: Ty, t2: Ty, cx: Ctx, m: Memory, v1: Word, v2: Word)
    requires Has(e1, cx, m, v1) && Has(e2, cx, m, v2) && Other(op, e1, e2, t1, t2).Ok?
    ensures Has(Other(op, e1, e2, t1, t2).e, cx, m, Apply(if Joined(t1, t2).Unsigned? then AsUnsigned(op) else op, v1, v2))
  {
    hide Eval; hide Apply; hide Wrap;
    var o := if Joined(t1, t2).Unsigned? then AsUnsigned(op) else op;
    HasBin(o, e1, e2, cx, m, v1, v2);
    if (op.Mul? || op.Div?) && e2.Const? && e2.c == 1 {
      ConstValue(1, cx, m);
      WrapSmall(1);
      ByOne(o, v1);
    }
  }

  /** Multiplying and dividing by one. */
  lemma ByOne(op: BinOp, v: Word)
    requires op.Mul? || op.UMul? || op.Div? || op.UDiv?
    ensures Apply(op, v, 1) == v
  {
    hide ShiftArith; hide ShiftLeft; hide ShiftRight;
    ApplyIs(op, v, 1);
    assert UDivide(v, 1) == v;
    assert Signed(1) == 1 && Quotient(Signed(v), 1) == Signed(v);
    assert Wrap(Signed(v)) == v;
  }

  // ---------- constants ----------

  lemma InRangeSigned(c: int)
    requires InRange(c)
    ensures Signed(Wrap(c)) == c
  {}

  lemma FoldedQuotient(a: int, b: int)
    requires InRange(b) && b != 0
    ensures Apply(Div, Wrap(a), Wrap(b)) == Wrap(Quotient(Signed(Wrap(a)), b))
    ensures Apply(Mod, Wrap(a), Wrap(b)) == Wrap(Remainder(Signed(Wrap(a)), b))
  {
    hide ShiftArith; hide ShiftLeft; hide ShiftRight; hide Quotient; hide Remainder; hide Wrap; hide Signed;
    InRangeSigned(b);
    NotZero(b);
  }

  lemma UnsignedQuotient(a: int, b: int)
    requires 0 < b < 0x1_0000
    ensures Apply(UDiv, Wrap(a), Wrap(b)) == Wrap(a) / b && Apply(UMod, Wrap(a), Wrap(b)) == Wrap(a) % b
  {
    hide ShiftArith; hide ShiftLeft; hide ShiftRight; hide Quotient; hide Remainder; hide Wrap; hide Signed;
    WrapSmall(b);
  }

  lemma NotZero(b: int)
    requires InRange(b) && b != 0
    ensures Wrap(b) != 0
  {}

  lemma FoldedShifts(a: int, b: int)
    requires 0 <= b < 0x8000
    ensures Apply(LShift, Wrap(a), Wrap(b)) == Apply(ULShift, Wrap(a), Wrap(b)) == Wrap(a * Pow2(b))
    ensures Apply(RShift, Wrap(a), Wrap(b)) == Wrap(Signed(Wrap(a)) / Pow2(b))
    ensures Apply(URShift, Wrap(a), Wrap(b)) == Wrap(a) / Pow2(b)
  {
    hide Wrap; hide Pow2; hide Quotient; hide Remainder;
    WrapSmall(b);
    assert Signed(b) == b;
    WrapScale(Pow2(b), a);
    assert Pow2(b) * Wrap(a) == Wrap(a) * Pow2(b) && Pow2(b) * a == a * Pow2(b);
  }

  /** A quotient, remainder or right shift of a constant that fits. */
  lemma FoldFits(op: BinOp, a: int, b: int, t1: Ty, t2: Ty)
    requires (op.Div? || op.Mod? || op.RShift?) && Integral(t1) && Integral(t2) && Fits(Joined(t1, t2), a)
    requires if op.RShift? then 0 <= b < 0x8000 else Fits(Joined(t1, t2), b) && b != 0
    ensures FoldIs(op, a, b, t1, t2)
  {
    hide Apply; hide Wrap; hide Pow2; hide Quotient; hide Remainder;
    if op.RShift? {
      FoldedShifts(a, b);
    } else if Joined(t1, t2).Unsigned? {
      UnsignedQuotient(a, b);
      NaturalQuotient(a, b);
    } else {
      FoldedQuotient(a, b);
    }
    if Joined(t1, t2).Unsigned? { WrapSmall(a); WrapQuotient(a, if op.RShift? then Pow2(b) else b); } else { InRangeSigned(a); }
  }

  lemma NaturalQuotient(a: nat, b: nat)
    requires b > 0
    ensures Quotient(a, b) == a / b && Remainder(a, b) == a % b
  {}

  lemma WrapQuotient(a: Word, p: int)
    requires p > 0
    ensures Wrap(a / p) == a / p && (p < 0x1_0000 ==> Wrap(a % p) == a % p)
  {
    hide Wrap;
    Floor(a, p);
    WrapSmall(a / p);
    if p < 0x1_0000 { WrapSmall(a % p); }
  }

  lemma FoldedValue(op: BinOp, a: int, b: int, t1: Ty, t2: Ty, cx: Ctx, m: Memory)
    requires Plain(op) && FoldsRight(op, Const(a), Const(b), t1, t2) && Folded(op, a, b, t1, t2).Ok?
    requires op.Add? || op.Sub? || (Integral(t1) && Integral(t2))
    requires op.Add? && t1.Ptr? ==> Integral(t2)
    ensures Has(Folded(op, a, b, t1, t2).e, cx, m, Meant(op, t1, t2, Wrap(a), Wrap(b)))
  {
    hide Eval; hide Apply; hide Wrap; hide Bitwise16; hide Quotient; hide Remainder; hide Pow2; hide UDivide;
    var r := Folded(op, a, b, t1, t2).e;
    HasConst(r.c, cx, m);
    if op.Add? || op.Sub? { FoldedSum(op, a, b, t1, t2); }
    else if op.Mul? { FoldedProduct(a, b, t1, t2); }
    else if Simple(op) { FoldedBits(op, a, b, t1, t2); }
    else if op.LShift? { FoldedShifts(a, b); }
    else if op.RShift? { FoldFits(op, a, b, t1, t2); }
    else { FoldDivides(op, a, b, t1, t2); }
  }

  lemma FoldedSum(op: BinOp, a: int, b: int, t1: Ty, t2: Ty)
    requires (op.Add? || op.Sub?) && Folded(op, a, b, t1, t2).Ok? && FoldsRight(op, Const(a), Const(b), t1, t2)
    requires op.Add? && t1.Ptr? ==> Integral(t2)
    ensures Wrap(Folded(op, a, b, t1, t2).e.c) == Meant(op, t1, t2, Wrap(a), Wrap(b))
  {
    hide Apply; hide Wrap; hide UDivide;
    ApplyIs(Add, Wrap(a), Wrap(b));
    ApplyIs(Sub, Wrap(a), Wrap(b));
    AddWraps(a, b);
    if t2.Ptr? && op.Add? { ScaledSum(a, b, t2.size); }
    if t1.Ptr? { ScaledSum(b, a, t1.size); }
  }

  lemma ScaledSum(a: int, b: int, size: nat)
    ensures Wrap(size * Wrap(a) + Wrap(b)) == Wrap(size * a + b)
    ensures Wrap(Wrap(b) + size * Wrap(a)) == Wrap(b + size * a)
    ensures Wrap(Wrap(b) - size * Wrap(a)) == Wrap(b - size * a)
  {
    hide Wrap;
    var p, q := size * a, size * Wrap(a);
    WrapScale(size, a);
    assert Wrap(q) == Wrap(p);
    AddWraps(q, b);
    AddWraps(p, b);
    AddWraps(b, q);
    AddWraps(b, p);
  }

  lemma FoldedProduct(a: int, b: int, t1: Ty, t2: Ty)
    ensures Apply(if Joined(t1, t2).Unsigned? then UMul else Mul, Wrap(a), Wrap(b)) == Wrap(a * b)
  {
    hide Wrap; hide Apply;
    ApplyIs(Mul, Wrap(a), Wrap(b));
    ApplyIs(UMul, Wrap(a), Wrap(b));
    MulWraps(a, b);
  }

  lemma FoldedBits(op: BinOp, a: int, b: int, t1: Ty, t2: Ty)
    requires op.BOr? || op.EOr? || op.BAnd?
    ensures Wrap(Bitwise16(BitsOf(op), Wrap(a), Wrap(b))) == Apply(op, Wrap(a), Wrap(b))
  {
    hide Wrap; hide Bitwise16;
    WrapSmall(Bitwise16(BitsOf(op), Wrap(a), Wrap(b)));
  }

  // ---------- the theorem ----------

  lemma ArrangedValue(op: BinOp, e1: Expr, e2: Expr, t1: Ty, t2: Ty, cx: Ctx, m: Memory, v1: Word, v2: Word)
    requires Plain(op) && Has(e1, cx, m, v1) && Has(e2, cx, m, v2) && Arranged(op, e1, e2, t1, t2).Ok?
    ensures Has(Arranged(op, e1, e2, t1, t2).e, cx, m, Meant(op, t1, t2, v1, v2))
  {
    hide Eval; hide Apply; hide Wrap; hide UDivide; hide Scaled; hide Other; hide Has;
    if op.Add? { ArrangedSum(e1, e2, t1, t2, cx, m, v1, v2); }
    else if op.Sub? { ArrangedDifference(e1, e2, t1, t2, cx, m, v1, v2); }
    else { OtherValue(op, e1, e2, t1, t2, cx, m, v1, v2); }
  }

  lemma ArrangedSum(e1: Expr, e2: Expr, t1: Ty, t2: Ty, cx: Ctx, m: Memory, v1: Word, v2: Word)
    requires Has(e1, cx, m, v1) && Has(e2, cx, m, v2) && Arranged(Add, e1, e2, t1, t2).Ok?
    ensures Has(Arranged(Add, e1, e2, t1, t2).e, cx, m, Meant(Add, t1, t2, v1, v2))
  {
    hide Eval; hide Apply; hide Wrap; hide UDivide; hide Scaled;
    if Integral(t1) && Integral(t2) {
      HasBin(Add, e1, e2, cx, m, v1, v2);
    } else if Integral(t1) {
      var e := Scaled(Mul, e1, t2.size, t1).e;
      ScaledValue(e1, t2.size, t1, cx, m, v1);
      HasBin(Add, e, e2, cx, m, Wrap(t2.size * v1), v2);
      ApplyIs(Add, Wrap(t2.size * v1), v2);
      AddWraps(t2.size * v1, v2);
    } else {
      var e := Scaled(Mul, e2, t1.size, t2).e;
      ScaledValue(e2, t1.size, t2, cx, m, v2);
      AddWraps(v1, t1.size * v2);
      if e1.Address? && e.Const? {
        HasMoved(e1.v, e.c, cx, m, v1);
        ConstValue(e.c, cx, m);
        AddWraps(v1, e.c);
      } else {
        HasBin(Add, e1, e, cx, m, v1, Wrap(t1.size * v2));
        ApplyIs(Add, v1, Wrap(t1.size * v2));
      }
    }
  }

  lemma ArrangedDifference(e1: Expr, e2: Expr, t1: Ty, t2: Ty, cx: Ctx, m: Memory, v1: Word, v2: Word)
    requires Has(e1, cx, m, v1) && Has(e2, cx, m, v2) && Arranged(Sub, e1, e2, t1, t2).Ok?
    ensures Has(Arranged(Sub, e1, e2, t1, t2).e, cx, m, Meant(Sub, t1, t2, v1, v2))
  {
    hide Eval; hide Apply; hide Wrap; hide UDivide;
    if Integral(t1) {
      HasBin(Sub, e1, e2, cx, m, v1, v2);
    } else if Integral(t2) {
      var e := Scaled(Mul, e2, t1.size, t2).e;
      ScaledValue(e2, t1.size, t2, cx, m, v2);
      HasBin(Sub, e1, e, cx, m, v1, Wrap(t1.size * v2));
      ApplyIs(Sub, v1, Wrap(t1.size * v2));
      AddWraps(v1, t1.size * v2);
    } else {
      HasBin(Sub, e1, e2, cx, m, v1, v2);
      ApplyIs(Sub, v1, v2);
      HasConst(t1.size, cx, m);
      OtherValue(Div, Bin(Sub, e1, e2), Const(t1.size), Unsigned, Int, cx, m, Wrap(v1 - v2), Wrap(t1.size));
      ApplyIs(UDiv, Wrap(v1 - v2), Wrap(t1.size));
    }
  }

  lemma MeantCommutes(op: BinOp, t1: Ty, t2: Ty, v1: Word, v2: Word)
    requires Commutes(op) && (t1.Ptr? && t2.Ptr? ==> !op.Add?)
    ensures Meant(op, t1, t2, v1, v2) == Meant(op, t2, t1, v2, v1)
  {
    hide Apply; hide Wrap; hide Bitwise16;
    ApplyIs(Add, v1, v2); ApplyIs(Add, v2, v1);
    ApplyIs(Mul, v1, v2); ApplyIs(Mul, v2, v1);
    ApplyIs(UMul, v1, v2); ApplyIs(UMul, v2, v1);
    if Simple(op) && !op.Add? { BitsCommute(op, v1, v2); }
  }

  lemma BitsCommute(op: BinOp, v1: Word, v2: Word)
    requires op.BOr? || op.EOr? || op.BAnd?
    ensures Apply(op, v1, v2) == Apply(op, v2, v1)
  {
    BitwiseCommutes(BitsOf(op), v1, v2, 16);
  }

  lemma {:induction false} BitwiseCommutes(op: BitOp, a: nat, b: nat, k: nat)
    ensures Bitwise(op, a, b, k) == Bitwise(op, b, a, k)
  {
    if k > 0 { BitwiseCommutes(op, a / 2, b / 2, k - 1); }
  }

  /** Types for which binop builds something. */
  predicate Typed(op: BinOp, t1: Ty, t2: Ty) {
    if op.Add? then (Integral(t1) && (Integral(t2) || t2.Ptr?)) || (t1.Ptr? && Integral(t2))
    else if op.Sub? then (Integral(t1) && Integral(t2)) || (t1.Ptr? && (Integral(t2) || t1 == t2))
    else Integral(t1) && Integral(t2)
  }

  /** Whatever binop folds, swaps or scales, the tree it builds has the value that was meant,
      for operands whose evaluation changes nothing. */
  lemma BinopValue(op: BinOp, e1: Expr, e2: Expr, t1: Ty, t2: Ty, cx: Ctx, m: Memory, v1: Word, v2: Word)
    requires Plain(op) && Typed(op, t1, t2) && FoldsRight(op, e1, e2, t1, t2) && Binop(op, e1, e2, t1, t2).Ok?
    requires Has(e1, cx, m, v1) && Has(e2, cx, m, v2)
    ensures Has(Binop(op, e1, e2, t1, t2).e, cx, m, Meant(op, t1, t2, v1, v2))
  {
    hide Eval; hide Folded; hide Arranged; hide Meant;
    if e1.Const? && e2.Const? {
      ConstValue(e1.c, cx, m);
      ConstValue(e2.c, cx, m);
      FoldedValue(op, e1.c, e2.c, t1, t2, cx, m);
    } else if Swaps(op, e1, e2) {
      ArrangedValue(op, e2, e1, t2, t1, cx, m, v2, v1);
      MeantCommutes(op, t1, t2, v1, v2);
    } else {
      ArrangedValue(op, e1, e2, t1, t2, cx, m, v1, v2);
    }
  }

  /** Between integers the operation is unsigned if the first operand is, or if it is INT and the
      second one is unsigned. */
  lemma IntegersMeant(op: BinOp, t1: Ty, t2: Ty, v1: Word, v2: Word)
    requires Plain(op) && Integral(t1) && Integral(t2)
    ensures var unsigned := t1.Unsigned? || (t1.Int? && t2.Unsigned?);
            var w := Meant(op, t1, t2, v1, v2);
            && (op.Div? ==> Denotes(if unsigned then UDiv else Div, v1, v2, w))
            && (op.Mod? ==> Denotes(if unsigned then UMod else Mod, v1, v2, w))
            && (op.LShift? ==> Denotes(if unsigned then ULShift else LShift, v1, v2, w))
            && (op.RShift? ==> Denotes(if unsigned then URShift else RShift, v1, v2, w))
            && (op.Mul? || Simple(op) ==> Denotes(op, v1, v2, w))
  {
    hide Denotes; hide Apply;
    OperatorsMean(op, v1, v2);
    OperatorsMean(AsUnsigned(op), v1, v2);
    if op.Mul? { ApplyIs(Mul, v1, v2); ApplyIs(UMul, v1, v2); }
  }

  /** Where it can be, an operand that the code uses without the stack stands on the right: a constant,
      or else a word variable. */
  lemma LateOnTheRight(op: BinOp, e1: Expr, e2: Expr, t1: Ty, t2: Ty)
    requires Plain(op) && Commutes(op) && Integral(t1) && Integral(t2) && !(e1.Const? && e2.Const?)
    requires (e1.Const? ==> e1.c != 1) && (e2.Const? ==> e2.c != 1)
    ensures Binop(op, e1, e2, t1, t2).Ok?
    ensures var e := Binop(op, e1, e2, t1, t2).e;
            && e.Bin? && ((e.l == e1 && e.r == e2) || (e.l == e2 && e.r == e1))
            && (e1.Const? || e2.Const? ==> e.r.Const?)
            && (!e1.Const? && !e2.Const? && (e1.RVar? || e2.RVar?) ==> e.r.RVar?)
  {
    hide Arranged; hide Folded; hide Plain; hide Commutes; hide Integral;
    if Swaps(op, e1, e2) { IntegersArranged(op, e2, e1, t2, t1); } else { IntegersArranged(op, e1, e2, t1, t2); }
  }

  /** Between integers, in the order given. */
  lemma IntegersArranged(op: BinOp, e1: Expr, e2: Expr, t1: Ty, t2: Ty)
    requires Commutes(op) && Plain(op) && Integral(t1) && Integral(t2) && (e2.Const? ==> e2.c != 1)
    ensures var b := Arranged(op, e1, e2, t1, t2); b.Ok? && b.e.Bin? && b.e.l == e1 && b.e.r == e2
  {
    hide Scaled; hide Joined; hide AsUnsigned;
  }

  /** The type that binop leaves: a pointer moved by an integer keeps its type, the difference of
      pointers is INT, and integers give UNSIGNED when either is; constants give INT. */
  lemma BuiltType(op: BinOp, e1: Expr, e2: Expr, t1: Ty, t2: Ty)
    requires Plain(op) && Typed(op, t1, t2) && Binop(op, e1, e2, t1, t2).Ok?
    ensures var ty := Binop(op, e1, e2, t1, t2).ty;
            && (t1.Ptr? && !t2.Ptr? ==> ty == t1) && (t2.Ptr? && !t1.Ptr? ==> ty == t2)
            && (!(e1.Const? && e2.Const?) ==>
                  && (t1.Ptr? && t2.Ptr? ==> ty == Int)
                  && (t1 in {Int, Unsigned} && t2 in {Int, Unsigned} ==> ty == if t1.Unsigned? || t2.Unsigned? then Unsigned else Int))
            && (e1.Const? && e2.Const? && Integral(t1) && Integral(t2) ==> ty == Int)
  {
    hide Arranged; hide Folded;
    if e1.Const? && e2.Const? { FoldedType(op, e1.c, e2.c, t1, t2); }
    else if Swaps(op, e1, e2) { ArrangedType(op, e2, e1, t2, t1); }
    else { ArrangedType(op, e1, e2, t1, t2); }
  }

  lemma FoldedType(op: BinOp, a: int, b: int, t1: Ty, t2: Ty)
    requires Plain(op) && Typed(op, t1, t2) && Folded(op, a, b, t1, t2).Ok?
    ensures var ty := Folded(op, a, b, t1, t2).ty;
            (t1.Ptr? && !t2.Ptr? ==> ty == t1) && (t2.Ptr? && !t1.Ptr? ==> ty == t2) && (Integral(t1) && Integral(t2) ==> ty == Int)
  {
    hide Bitwise16; hide Pow2; hide Quotient; hide Remainder;
  }

  lemma ArrangedType(op: BinOp, e1: Expr, e2: Expr, t1: Ty, t2: Ty)
    requires Plain(op) && Arranged(op, e1, e2, t1, t2).Ok?
    ensures var ty := Arranged(op, e1, e2, t1, t2).ty;
            && (t1.Ptr? && !t2.Ptr? ==> ty == t1) && (t2.Ptr? && !t1.Ptr? ==> ty == t2) && (t1.Ptr? && t2.Ptr? ==> ty == Int)
            && (t1 in {Int, Unsigned} && t2 in {Int, Unsigned} ==> ty == if t1.Unsigned? || t2.Unsigned? then Unsigned else Int)
  {
    hide Scaled;
  }

  /** Unless both operands are constants, binop reports a type error exactly for the types that
      C does not combine. */
  lemma ErrorsAreTypes(op: BinOp, e1: Expr, e2: Expr, t1: Ty, t2: Ty)
    requires Plain(op) && !(e1.Const? && e2.Const?)
    ensures Binop(op, e1, e2, t1, t2).TypeError? <==> !Typed(op, t1, t2)
  {
    hide Arranged; hide Folded; hide Plain;
    ArrangedErrors(op, e1, e2, t1, t2);
    ArrangedErrors(op, e2, e1, t2, t1);
  }

  lemma ArrangedErrors(op: BinOp, e1: Expr, e2: Expr, t1: Ty, t2: Ty)
    requires Plain(op)
    ensures Arranged(op, e1, e2, t1, t2).TypeError? <==> !Typed(op, t1, t2)
  {
    hide Scaled; hide Plain;
    if op.Add? || op.Sub? {
      ScaledErrors(Mul, e1, t2, t1);
      ScaledErrors(Mul, e2, t1, t2);
      if op.Sub? { ScaledErrors(Div, Bin(Sub, e1, e2), t1, Unsigned); }
    }
  }

  lemma ScaledErrors(op: BinOp, e: Expr, p: Ty, t: Ty)
    requires op.Mul? || (op.Div? && !e.Const?)
    ensures p.Ptr? && Integral(t) ==> Scaled(op, e, p.size, t).Ok?
  {}

  /** With two constants of pointer type the difference is folded as if the second one were
      an integer: that is right for all of them exactly when the size is one. */
  lemma ConstantPointers(target: nat, size: nat)
    requires 0 < size < 0x1_0000
    ensures (forall a: Word, b: Word :: Wrap(a - size * b) == Meant(Sub, Ptr(target, size), Ptr(target, size), a, b)) <==> size == 1
  {
    var p := Ptr(target, size);
    if size == 1 {
      forall a: Word, b: Word ensures Wrap(a - size * b) == Meant(Sub, p, p, a, b) { DivideByOne(Wrap(a - b)); WrapSmall(1); }
    } else {
      SizeAgainstZero(p);
      assert Wrap(size - size * 0) != Meant(Sub, p, p, size, 0);
    }
  }

  lemma DivideByOne(v: Word)
    ensures UDivide(v, 1) == v
  {}

  lemma SizeAgainstZero(p: Ty)
    requires p.Ptr? && 1 < p.size < 0x1_0000
    ensures Wrap(p.size - p.size * 0) == p.size && Meant(Sub, p, p, p.size, 0) == 1
  {
    WrapSmall(p.size);
    assert p.size / p.size == 1;
  }

  // ---------- foldings on the host's integers ----------

  /** What a host integer holds. */
  predicate Host(c: int) { -0x8000_0000 <= c < 0x8000_0000 }

  /** Second operands for which the host's operation is defined and the target can have them. */
  predicate Divides(op: BinOp, t: Ty, b: int) { if op.RShift? then 0 <= b < 32 else Fits(t, b) && b != 0 }

  /** The folded constant has the value that the operation has on the target. */
  predicate FoldIs(op: BinOp, a: int, b: int, t1: Ty, t2: Ty)
    requires op.Div? || op.Mod? || op.RShift?
  {
    Folded(op, a, b, t1, t2).Ok? && Wrap(Folded(op, a, b, t1, t2).e.c) == Meant(op, t1, t2, Wrap(a), Wrap(b))
  }

  /** A second operand that shows the difference for every first one that does not fit. */
  function Witness(op: BinOp, t: Ty, a: int): int {
    if op.RShift? then 16
    else if t.Unsigned? then (if 0 <= a + 0x1_0000 < 0x1_0000 then (if op.Div? then 2 else 3) else 0xffff)
    else if op.Div? then (if a == -0x8000_0000 || a == 0x7fff_8000 then 3 else -0x8000)
    else if 0x7fff_0000 - 0x8000 <= a < 0x7fff_0000 + 0x8000 || -0x7fff_0000 - 0x8000 <= a < -0x7fff_0000 + 0x8000 then 3
    else 0x7fff
  }

  lemma WitnessDivides(op: BinOp, t: Ty, a: int)
    requires op.Div? || op.Mod? || op.RShift?
    ensures Divides(op, t, Witness(op, t, a))
  {}

  /** Folding quotients, remainders and right shifts of a constant is right for all second
      operands if and only if the target's type holds the constant. */
  lemma FoldedExactly(op: BinOp, a: int, t1: Ty, t2: Ty)
    requires (op.Div? || op.Mod? || op.RShift?) && Integral(t1) && Integral(t2) && Host(a)
    ensures (forall b :: Divides(op, Joined(t1, t2), b) ==> FoldIs(op, a, b, t1, t2)) <==> Fits(Joined(t1, t2), a)
  {
    hide FoldIs;
    var t := Joined(t1, t2);
    if Fits(t, a) {
      forall b | Divides(op, t, b) ensures FoldIs(op, a, b, t1, t2) { FoldFits(op, a, b, t1, t2); }
    } else {
      WitnessDivides(op, t, a);
      var b := Witness(op, t, a);
      if op.RShift? { WrongShift(a, t1, t2); }
      else if t.Unsigned? { WrongUnsigned(op, a, t1, t2); }
      else if op.Div? { WrongQuotient(a, t1, t2); }
      else { WrongRemainder(a, t1, t2); }
      assert !FoldIs(op, a, b, t1, t2);
    }
  }

  lemma WrongShift(a: int, t1: Ty, t2: Ty)
    requires Integral(t1) && Integral(t2) && Host(a) && !Fits(Joined(t1, t2), a)
    ensures !FoldIs(RShift, a, 16, t1, t2)
  {
    hide Apply;
    FoldedShifts(a, 16);
    Pow8();
  }

  lemma WrongQuotient(a: int, t1: Ty, t2: Ty)
    requires Integral(t1) && Integral(t2) && !Joined(t1, t2).Unsigned? && Host(a) && !InRange(a)
    ensures !FoldIs(Div, a, Witness(Div, Joined(t1, t2), a), t1, t2)
  {
    hide Apply; hide Quotient; hide Remainder; hide Wrap; hide Signed;
    FoldedQuotient(a, Witness(Div, Joined(t1, t2), a));
    if a == -0x8000_0000 || a == 0x7fff_8000 {
      EdgeQuotients();
    } else {
      ByLowest(a);
      ByLowest(Signed(Wrap(a)));
      HighQuotient(a, Signed(Wrap(a)));
    }
  }

  lemma EdgeQuotients()
    ensures Wrap(Quotient(-0x8000_0000, 3)) != Wrap(Quotient(Signed(Wrap(-0x8000_0000)), 3))
    ensures Wrap(Quotient(0x7fff_8000, 3)) != Wrap(Quotient(Signed(Wrap(0x7fff_8000)), 3))
  {}

  lemma HighQuotient(a: int, s: int)
    requires Host(a) && !InRange(a) && a != -0x8000_0000 && a != 0x7fff_8000 && s == Signed(Wrap(a))
    ensures Wrap(if a >= 0 then -(a / 0x8000) else -a / 0x8000) != Wrap(if s >= 0 then -(s / 0x8000) else -s / 0x8000)
  {
    hide Wrap; hide Signed;
    var t := Overflow(a);
    assert a / 0x8000 == 2 * t + s / 0x8000;
    assert -a / 0x8000 == -2 * t + -s / 0x8000;
    WrapApart(if a >= 0 then -(a / 0x8000) else -a / 0x8000, if s >= 0 then -(s / 0x8000) else -s / 0x8000);
  }

  lemma Overflow(a: int) returns (t: int)
    ensures a == Signed(Wrap(a)) + 0x1_0000 * t && InRange(Signed(Wrap(a)))
  {
    t := (a - Signed(Wrap(a))) / 0x1_0000;
  }

  lemma WrapApart(x: int, y: int)
    requires x != y && -0x1_0000 < x - y < 0x1_0000
    ensures Wrap(x) != Wrap(y)
  {}

  lemma ByLowest(a: int)
    ensures Quotient(a, -0x8000) == if a >= 0 then -(a / 0x8000) else -a / 0x8000
  {}

  /** Quotient and remainder belong together; both are toward zero. */
  lemma RemainderForm(a: int, b: int) returns (q: int)
    requires b > 0
    ensures Remainder(a, b) == a - b * q && -b < Remainder(a, b) < b && (a >= 0 ==> Remainder(a, b) >= 0) && (a <= 0 ==> Remainder(a, b) <= 0)
    ensures q == Quotient(a, b)
  {
    hide Quotient; hide Remainder;
    var m := if a < 0 then -a else a;
    var q0, r0 := m / b, m % b;
    TowardZero(a, b);
    q := if a < 0 then -q0 else q0;
    assert m == b * q0 + r0;
    if a < 0 { assert b * -q0 == -(b * q0); }
  }

  lemma TowardZero(a: int, b: int)
    requires b > 0
    ensures a >= 0 ==> Quotient(a, b) == a / b && Remainder(a, b) == a % b
    ensures a < 0 ==> Quotient(a, b) == -(-a / b) && Remainder(a, b) == -(-a % b)
  {}

  lemma WrongRemainder(a: int, t1: Ty, t2: Ty)
    requires Integral(t1) && Integral(t2) && !Joined(t1, t2).Unsigned? && Host(a) && !InRange(a)
    ensures !FoldIs(Mod, a, Witness(Mod, Joined(t1, t2), a), t1, t2)
  {
    hide Apply; hide Remainder; hide Quotient; hide Wrap; hide Signed;
    var b := Witness(Mod, Joined(t1, t2), a);
    FoldedQuotient(a, b);
    var s := Signed(Wrap(a));
    var q := RemainderForm(a, b);
    var r := RemainderForm(s, b);
    assert Remainder(a, b) != Remainder(s, b) by {
      if b == 3 { NoMultiple3(a, s, q, r); } else { NoMultiple7fff(a, s, q, r); }
    }
    WrapApart(Remainder(a, b), Remainder(s, b));
  }

  lemma NoMultiple3(a: int, s: int, q: int, r: int)
    requires s == Signed(Wrap(a)) && Witness(Mod, Int, a) == 3
    ensures a - 3 * q != s - 3 * r
  {}

  lemma NoMultiple7fff(a: int, s: int, q: int, r: int)
    requires Host(a) && !InRange(a) && s == Signed(Wrap(a))
    requires !(0x7fff_0000 - 0x8000 <= a < 0x7fff_0000 + 0x8000) && !(-0x7fff_0000 - 0x8000 <= a < -0x7fff_0000 + 0x8000)
    ensures a - 0x7fff * q != s - 0x7fff * r
  {
    var t := Overflow(a);
    var k := q - r - 2 * t;
    assert (a - 0x7fff * q) - (s - 0x7fff * r) == 2 * t - 0x7fff * k;
  }

  lemma WrongUnsigned(op: BinOp, a: int, t1: Ty, t2: Ty)
    requires (op.Div? || op.Mod?) && Integral(t1) && Integral(t2) && Joined(t1, t2).Unsigned? && Host(a) && !(0 <= a < 0x1_0000)
    ensures !FoldIs(op, a, Witness(op, Joined(t1, t2), a), t1, t2)
  {
    hide Apply; hide Remainder; hide Quotient;
    var b := Witness(op, Joined(t1, t2), a);
    UnsignedQuotient(a, b);
    var q := RemainderForm(a, b);
    var w := Wrap(a);
    var t := a / 0x1_0000;
    assert a == w + 0x1_0000 * t;
    if t == -1 { WrongNear(op, a, w, q); } else { WrongFar(op, a, w, t, q); }
  }

  /** Less than 2^16 below zero. */
  lemma WrongNear(op: BinOp, a: int, w: Word, q: int)
    requires (op.Div? || op.Mod?) && a == w - 0x1_0000
    requires var b := if op.Div? then 2 else 3; Remainder(a, b) == a - b * q && q == Quotient(a, b) && -b < Remainder(a, b) <= 0
    ensures op.Div? ==> Wrap(Quotient(a, 2)) != w / 2
    ensures op.Mod? ==> Wrap(Remainder(a, 3)) != w % 3
  {
    hide Remainder; hide Quotient;
  }

  lemma WrongFar(op: BinOp, a: int, w: Word, t: int, q: int)
    requires (op.Div? || op.Mod?) && a == w + 0x1_0000 * t && t != 0 && t != -1 && -0x8000 <= t < 0x8000
    requires Remainder(a, 0xffff) == a - 0xffff * q && q == Quotient(a, 0xffff) && -0xffff < Remainder(a, 0xffff) < 0xffff
    requires (a >= 0 ==> Remainder(a, 0xffff) >= 0) && (a <= 0 ==> Remainder(a, 0xffff) <= 0)
    ensures op.Div? ==> Wrap(Quotient(a, 0xffff)) != w / 0xffff
    ensures op.Mod? ==> Wrap(Remainder(a, 0xffff)) != w % 0xffff
  {
    hide Remainder; hide Quotient;
    var r := a - 0xffff * q;
    assert r == w + t - 0xffff * (q - t);
    if op.Div? {
      if t > 0 { assert t <= q <= t + 1; } else { assert t <= q <= t + 1; }
    }
  }

  // ---------- and their divisors ----------

  /** Divisors with which folding is right: those that the target's type holds, and for
      remainders also multiples of 2^16 and 2^15 with the wrong sign. */
  predicate DivisorFits(op: BinOp, t: Ty, b: int) {
    Fits(t, b) || (op.Mod? && (Wrap(b) == 0 || b == if t.Unsigned? then -0x8000 else 0x8000))
  }

  /** Folding quotients and remainders by a constant is right for all first operands that the
      target's type holds if and only if the divisor is one of these. */
  lemma DivisorExactly(op: BinOp, b: int, t1: Ty, t2: Ty)
    requires (op.Div? || op.Mod?) && Integral(t1) && Integral(t2) && Host(b) && b != 0
    ensures (forall a :: Fits(Joined(t1, t2), a) ==> FoldIs(op, a, b, t1, t2)) <==> DivisorFits(op, Joined(t1, t2), b)
  {
    hide FoldIs;
    var t := Joined(t1, t2);
    if DivisorFits(op, t, b) {
      forall a | Fits(t, a) ensures FoldIs(op, a, b, t1, t2) { FoldDivides(op, a, b, t1, t2); }
    } else {
      var a := Dividend(op, t, b);
      WrongDivisor(op, b, t1, t2);
      assert Fits(t, a) && !FoldIs(op, a, b, t1, t2);
    }
  }

  lemma FoldDivides(op: BinOp, a: int, b: int, t1: Ty, t2: Ty)
    requires (op.Div? || op.Mod?) && Integral(t1) && Integral(t2) && b != 0
    requires Fits(Joined(t1, t2), a) && DivisorFits(op, Joined(t1, t2), b)
    ensures FoldIs(op, a, b, t1, t2)
  {
    hide FoldIs;
    if Fits(Joined(t1, t2), b) { FoldFits(op, a, b, t1, t2); }
    else if Wrap(b) == 0 { RemainderByZero(a, b, t1, t2); }
    else { RemainderByHalf(a, b, t1, t2); }
  }

  /** A first operand that shows the difference for every divisor that does not fit. */
  function Dividend(op: BinOp, t: Ty, b: int): int {
    var w := if t.Unsigned? then Wrap(b) else Signed(Wrap(b));
    if w == 0 then 1 else if t.Unsigned? && -0xffff < b < 0 && (op.Div? || -b < w) then -b else w
  }

  /** A divisor of larger magnitude leaves the dividend. */
  lemma ByLarger(a: int, b: int)
    requires b != 0 && (if a < 0 then -a else a) < (if b < 0 then -b else b)
    ensures Quotient(a, b) == 0 && Remainder(a, b) == a
  {
    SmallQuotient(if a < 0 then -a else a, if b < 0 then -b else b);
  }

  lemma SmallQuotient(a: nat, b: nat)
    requires a < b
    ensures a / b == 0 && a % b == a
  {}

  lemma BySelf(a: int)
    requires a != 0
    ensures Quotient(a, a) == 1 && Remainder(a, a) == 0
  {
    SameQuotient(if a < 0 then -a else a);
  }

  lemma SameQuotient(a: nat)
    requires a > 0
    ensures a / a == 1 && a % a == 0
  {}

  lemma RemainderByZero(a: int, b: int, t1: Ty, t2: Ty)
    requires Integral(t1) && Integral(t2) && Fits(Joined(t1, t2), a) && b != 0 && Wrap(b) == 0
    ensures FoldIs(Mod, a, b, t1, t2)
  {
    hide Quotient; hide Remainder; hide Apply; hide Wrap;
    ZeroWraps(b);
    ByLarger(a, b);
    AppliedByZero(Wrap(a));
  }

  lemma ZeroWraps(b: int)
    requires Wrap(b) == 0 && b != 0
    ensures b >= 0x1_0000 || b <= -0x1_0000
  {}

  lemma AppliedByZero(v: Word)
    ensures Apply(Mod, v, 0) == v && Apply(UMod, v, 0) == v
  {}

  lemma RemainderByHalf(a: int, b: int, t1: Ty, t2: Ty)
    requires Integral(t1) && Integral(t2) && Fits(Joined(t1, t2), a) && b == if Joined(t1, t2).Unsigned? then -0x8000 else 0x8000
    ensures FoldIs(Mod, a, b, t1, t2)
  {
    hide Apply; hide Wrap; hide Signed;
    if Joined(t1, t2).Unsigned? {
      UnsignedQuotient(a, 0x8000);
      WrapSmall(a);
      WrapQuotient(a, 0x8000);
      assert Wrap(b) == Wrap(0x8000) by { HalfWraps(); }
    } else {
      FoldedQuotient(a, -0x8000);
      InRangeSigned(a);
      assert Wrap(b) == Wrap(-0x8000) by { HalfWraps(); }
    }
  }

  lemma HalfWraps()
    ensures Wrap(-0x8000) == Wrap(0x8000)
  {}

  lemma WrongDivisor(op: BinOp, b: int, t1: Ty, t2: Ty)
    requires (op.Div? || op.Mod?) && Integral(t1) && Integral(t2) && Host(b) && b != 0 && !DivisorFits(op, Joined(t1, t2), b)
    ensures var a := Dividend(op, Joined(t1, t2), b); Fits(Joined(t1, t2), a) && !FoldIs(op, a, b, t1, t2)
  {
    if Joined(t1, t2).Unsigned? { WrongUnsignedDivisor(op, b, t1, t2); } else { WrongSignedDivisor(op, b, t1, t2); }
  }

  lemma WrongSignedDivisor(op: BinOp, b: int, t1: Ty, t2: Ty)
    requires (op.Div? || op.Mod?) && Integral(t1) && Integral(t2) && !Joined(t1, t2).Unsigned? && Host(b) && b != 0
    requires !DivisorFits(op, Joined(t1, t2), b)
    ensures var a := Dividend(op, Joined(t1, t2), b); InRange(a) && !FoldIs(op, a, b, t1, t2)
  {
    hide Quotient; hide Remainder; hide Apply; hide Wrap; hide Signed;
    var a, w := Dividend(op, Joined(t1, t2), b), Wrap(b);
    SignedFits(w);
    if w == 0 { AppliedToZero(); } else { AppliedToSelf(w); }
    OutOfRange(b);
    if b == 0x8000 {
      LowestByHalf();
    } else {
      ByLarger(a, b);
    }
  }

  lemma SignedFits(w: Word)
    ensures Wrap(Signed(w)) == w && InRange(Signed(w)) && (w == 0 <==> Signed(w) == 0)
    ensures Wrap(0) == 0 && Wrap(1) == 1 && Wrap(-1) == 0xffff
  {}

  lemma OutOfRange(b: int)
    requires !InRange(b)
    ensures Wrap(b) == 0 ==> b >= 0x1_0000 || b <= -0x1_0000
    ensures b == 0x8000 ==> Signed(Wrap(b)) == -0x8000
  {}

  lemma AppliedToZero()
    ensures Apply(Div, 1, 0) == 0xffff && Apply(UDiv, 1, 0) == 0xffff
  {}

  lemma AppliedToSelf(w: Word)
    requires w != 0
    ensures Apply(Div, w, w) == 1 && Apply(Mod, w, w) == 0
  {
    hide Quotient; hide Remainder; hide ShiftLeft; hide ShiftRight; hide ShiftArith;
    BySelf(Signed(w));
  }

  lemma LowestByHalf()
    ensures Quotient(-0x8000, 0x8000) == -1
  {}

  lemma WrongUnsignedDivisor(op: BinOp, b: int, t1: Ty, t2: Ty)
    requires (op.Div? || op.Mod?) && Integral(t1) && Integral(t2) && Joined(t1, t2).Unsigned? && Host(b) && b != 0
    requires !DivisorFits(op, Joined(t1, t2), b)
    ensures var a := Dividend(op, Joined(t1, t2), b); 0 <= a < 0x1_0000 && !FoldIs(op, a, b, t1, t2)
  {
    hide Quotient; hide Remainder; hide Apply; hide Wrap;
    var a, w := Dividend(op, Joined(t1, t2), b), Wrap(b);
    SignedFits(w);
    NegativeWraps(b);
    WrapSmall(a);
    if w == 0 {
      AppliedToZero();
      ByLarger(a, b);
    } else {
      WrapSmall(w);
      UnsignedQuotient(a, w);
      if a == -b {
        OpposedQuotient(a);
        if op.Mod? { SmallQuotient(a, w); } else { BigQuotient(a, w); }
      } else {
        ByLarger(a, b);
        SameQuotient(w);
      }
    }
  }

  /** Divisors below zero on the target. */
  lemma NegativeWraps(b: int)
    ensures -0x1_0000 < b < 0 ==> Wrap(b) == b + 0x1_0000
    ensures Wrap(b) == 0 && b != 0 ==> b >= 0x1_0000 || b <= -0x1_0000
  {}

  lemma OpposedQuotient(a: int)
    requires a > 0
    ensures Quotient(a, -a) == -1 && Remainder(a, -a) == 0
  {
    SameQuotient(a);
  }

  lemma BigQuotient(a: Word, w: Word)
    requires a < 0xffff && w > 0
    ensures a / w < 0xffff
  {
    Floor(a, w);
  }
}
