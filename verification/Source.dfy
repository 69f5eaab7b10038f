/**
  Expression trees as the compiler's parser builds them, and what they mean.  The tags of
  the source's heap cells become constructors: RGVAR/RLVAR are RVar, CRGVAR/CRLVAR are
  CRVar, RINDIRECT/CRINDIRECT are RInd, ASS/CASS are Assign, ASSOP/CASSOP are AssOp, and
  CPREINC, CPOSTINC, CPREDEC, CPOSTDEC are CStep.
 */
module Source {
  import opened Machine
  import opened Runtime

  datatype Var = GVar(n: int) | LVar(n: int)

  datatype LVal = Plain(v: Var) | Indirect(e: Expr)

  datatype BinOp =
    | Mul | UMul | Div | UDiv | Mod | UMod | LShift | ULShift | RShift | URShift
    | Add | Sub | BAnd | EOr | BOr

  datatype CmpOp = Gt | UGt | Ge | UGe | Lt | ULt | Le | ULe | Eq | Neq

  datatype Expr =
    | RVar(v: Var)
    | CRVar(v: Var)
    | Const(c: int)
    | RInd(e: Expr, byte: bool)
    | Address(v: Var)
    | Minus(e: Expr) | BNot(e: Expr) | LNot(e: Expr)
    | PreInc(lv: LVal, k: int) | PostInc(lv: LVal, k: int)
    | CStep(lv: LVal, up: bool, post: bool)
    | Bin(op: BinOp, l: Expr, r: Expr)
    | Cmp(cmp: CmpOp, l: Expr, r: Expr)
    | LAnd(l: Expr, r: Expr) | LOr(l: Expr, r: Expr)
    | CondE(c1: Expr, t: Expr, f: Expr)
    | Assign(lv: LVal, e: Expr, byte: bool)
    | AssOp(lv: LVal, e: Expr, op: BinOp, byte: bool)
    | Comma(l: Expr, r: Expr)
    | CommaL(lv: LVal, r: Expr)   // a left operand that is never read

  function Size(e: Expr): nat {
    match e
    case RVar(_) => 1
    case CRVar(_) => 1
    case Const(_) => 1
    case Address(_) => 1
    case RInd(a, _) => 1 + Size(a)
    case Minus(a) => 1 + Size(a)
    case BNot(a) => 1 + Size(a)
    case LNot(a) => 1 + Size(a)
    case PreInc(lv, _) => 1 + LSize(lv)
    case PostInc(lv, _) => 1 + LSize(lv)
    case CStep(lv, _, _) => 1 + LSize(lv)
    case Bin(_, l, r) => 1 + Size(l) + Size(r)
    case Cmp(_, l, r) => 1 + Size(l) + Size(r)
    case LAnd(l, r) => 1 + Size(l) + Size(r)
    case LOr(l, r) => 1 + Size(l) + Size(r)
    case CondE(c, t, f) => 1 + Size(c) + Size(t) + Size(f)
    case Assign(lv, a, _) => 1 + LSize(lv) + Size(a)
    case AssOp(lv, a, _, _) => 1 + LSize(lv) + Size(a)
    case Comma(l, r) => 1 + Size(l) + Size(r)
    case CommaL(lv, r) => 1 + LSize(lv) + Size(r)
  }

  function LSize(lv: LVal): nat {
    match lv
    case Plain(_) => 1
    case Indirect(e) => 1 + Size(e)
  }

  // ---------- the shapes that the code generator tells apart ----------

  /** Operations that the processor does in one or two instructions (`simpop`). */
  predicate Simple(op: BinOp) { op.Add? || op.Sub? || op.BAnd? || op.EOr? || op.BOr? }

  /** RGVAR, RLVAR and CONST: operands that can be used without going through the stack. */
  predicate Late(e: Expr) { e.RVar? || e.Const? }

  /** Right-hand sides that are loaded without touching X. */
  predicate SimpleRhs(e: Expr) { e.RVar? || e.CRVar? || e.Const? }

  /** `--v` or `v++` on a variable by 1 or 2, which become auto-decrement and auto-increment. */
  predicate Auto(e: Expr) {
    (e.PreInc? && e.lv.Plain? && (e.k == -1 || e.k == -2)) ||
    (e.PostInc? && e.lv.Plain? && (e.k == 1 || e.k == 2))
  }

  predicate IsBool(e: Expr) { e.LNot? || e.Cmp? || e.LAnd? || e.LOr? }

  // ---------- which trees the theorem is about ----------

  /**
    Two things a tree must not do.  A compound assignment through a pointer must not use a
    library operator, and a constant in a condition must not be a non-zero multiple of
    2^16 (it is compared with zero as a host integer).
   */
  predicate Sound(e: Expr)
    decreases e, 0
  {
    match e
    case RVar(_) => true
    case CRVar(_) => true
    case Const(_) => true
    case Address(_) => true
    case RInd(a, _) => Sound(a)
    case Minus(a) => Sound(a)
    case BNot(a) => Sound(a)
    case LNot(a) => SoundCond(a)
    case PreInc(lv, _) => SoundL(lv)
    case PostInc(lv, _) => SoundL(lv)
    case CStep(lv, _, _) => SoundL(lv)
    case Bin(_, l, r) => Sound(l) && Sound(r)
    case Cmp(_, l, r) => Sound(l) && Sound(r)
    case LAnd(l, r) => SoundCond(l) && SoundCond(r)
    case LOr(l, r) => SoundCond(l) && SoundCond(r)
    case CondE(c, t, f) => SoundCond(c) && Sound(t) && Sound(f)
    case Assign(lv, a, _) => SoundL(lv) && Sound(a)
    case AssOp(lv, a, op, _) => SoundL(lv) && Sound(a) && (lv.Plain? || Simple(op))
    case Comma(l, r) => Sound(l) && Sound(r)
    case CommaL(lv, r) => SoundL(lv) && Sound(r)
  }

  predicate SoundL(lv: LVal)
    decreases lv, 0
  { lv.Indirect? ==> Sound(lv.e) }

  predicate SoundCond(e: Expr)
    decreases e, 1
  { Sound(e) && (e.Const? ==> ConstCondOk(e.c)) }

  predicate ConstCondOk(c: int) { c == 0 || Wrap(c) != 0 }

  // ---------- operators ----------

  function LibOf(op: BinOp): LibOp
    requires !Simple(op)
  {
    match op
    case Mul => LMul
    case UMul => LMul
    case Div => LDiv
    case UDiv => LUDiv
    case Mod => LMod
    case UMod => LUMod
    case LShift => LShl
    case ULShift => LUShl
    case RShift => LShr
    case URShift => LUShr
  }

  function BitsOf(op: BinOp): BitOp {
    match op
    case BAnd => AndBits
    case BOr => OrBits
    case _ => EorBits
  }

  function Apply(op: BinOp, a: Word, b: Word): Word {
    if op.Add? then Wrap(a + b)
    else if op.Sub? then Wrap(a - b)
    else if Simple(op) then Bitwise16(BitsOf(op), a, b)
    else LibValue(LibOf(op), a, b)
  }

  predicate Compares(op: CmpOp, a: Word, b: Word) {
    match op
    case Gt => Signed(a) > Signed(b)
    case UGt => a > b
    case Ge => Signed(a) >= Signed(b)
    case UGe => a >= b
    case Lt => Signed(a) < Signed(b)
    case ULt => a < b
    case Le => Signed(a) <= Signed(b)
    case ULe => a <= b
    case Eq => a == b
    case Neq => a != b
  }

  function Truth(p: bool): Word { if p then 1 else 0 }

  // ---------- memory as the source program sees it ----------

  /** Where the globals and the frame are, and the stretch lo..hi of the stack that the
      compiled code may use as scratch; the source program has no business there. */
  datatype Ctx = Ctx(y: Word, u: Word, lo: int, hi: int)

  predicate Free(cx: Ctx, a: int) { !(cx.lo <= a < cx.hi) }

  predicate FreeFor(cx: Ctx, a: Word, byte: bool) {
    Free(cx, a) && (byte || Free(cx, Wrap(a + 1)))
  }

  function AddrOf(cx: Ctx, v: Var): Word {
    match v
    case GVar(n) => Wrap(cx.y + n)
    case LVar(n) => Wrap(cx.u + n)
  }

  /** A value and the memory after computing it; Fault when scratch is touched. */
  datatype Result = Val(v: Word, m: Memory) | Fault {
    predicate IsFailure() { Fault? }
    function PropagateFailure(): Result { Fault }
    function Extract(): (Word, Memory)
      requires Val?
    {
      (v, m)
    }
  }

  function Load(cx: Ctx, m: Memory, a: Word, byte: bool): Result {
    if !FreeFor(cx, a, byte) then Fault
    else Val(if byte then Sext(m[a]) else ReadWord(m, a), m)
  }

  function Store(cx: Ctx, m: Memory, a: Word, w: Word, byte: bool): Result {
    if !FreeFor(cx, a, byte) then Fault
    else Val(w, if byte then m[a := w % 0x100] else WriteWord(m, a, w))
  }

  /** The address that an auto-increment or auto-decrement pointer designates, and the
      pointer's next value. */
  function AutoAddr(e: Expr, p: Word): Word
    requires Auto(e)
  {
    if e.PreInc? then Wrap(p + e.k) else p
  }

  function AutoNext(e: Expr, p: Word): Word
    requires Auto(e)
  {
    Wrap(p + e.k)
  }

  // ---------- evaluation ----------

  /**
    The value of an expression and its effect on memory.  C leaves the order of operands
    open; the order fixed here is right operand first unless it is Late, value before
    address in an assignment unless the value is a SimpleRhs, left before right when a sum
    is dereferenced for reading, and for `*--v`, `*v++` the access before the update of v.
   */
  function Eval(e: Expr, cx: Ctx, m: Memory): Result
    decreases Size(e), 1
  {
    match e
    case RVar(v) => Load(cx, m, AddrOf(cx, v), false)
    case CRVar(v) => Load(cx, m, AddrOf(cx, v), true)
    case Const(c) => Val(Wrap(c), m)
    case Address(v) => Val(AddrOf(cx, v), m)
    case RInd(a, byte) => EvalRInd(a, byte, cx, m)
    case Minus(a) => var (v, m1) :- Eval(a, cx, m); Val(Wrap(-(v as int)), m1)
    case BNot(a) => var (v, m1) :- Eval(a, cx, m); Val(0xffff - v, m1)
    case LNot(a) => var (v, m1) :- Eval(a, cx, m); Val(Truth(v == 0), m1)
    case PreInc(lv, k) =>
      var (a, m1) :- EvalL(lv, cx, m);
      var (v, m2) :- Load(cx, m1, a, false);
      Store(cx, m2, a, Wrap(v + k), false)
    case PostInc(lv, k) =>
      var (a, m1) :- EvalL(lv, cx, m);
      var (v, m2) :- Load(cx, m1, a, false);
      var (_, m3) :- Store(cx, m2, a, Wrap(v + k), false);
      Val(v, m3)
    case CStep(lv, up, post) =>
      var (a, m1) :- EvalL(lv, cx, m);
      var (v, m2) :- Load(cx, m1, a, true);
      var next := Sext(Wrap8(v + if up then 1 else -1));
      var (_, m3) :- Store(cx, m2, a, next, true);
      Val(if post then v else next, m3)
    case Bin(op, l, r) => EvalBin(op, l, r, cx, m)
    case Cmp(op, l, r) =>
      if Late(r) then
        var (a, m1) :- Eval(l, cx, m);
        var (b, m2) :- Eval(r, cx, m1);
        Val(Truth(Compares(op, a, b)), m2)
      else
        var (b, m1) :- Eval(r, cx, m);
        var (a, m2) :- Eval(l, cx, m1);
        Val(Truth(Compares(op, a, b)), m2)
    case LAnd(l, r) =>
      var (a, m1) :- Eval(l, cx, m);
      if a == 0 then Val(0, m1) else
      var (b, m2) :- Eval(r, cx, m1);
      Val(Truth(b != 0), m2)
    case LOr(l, r) =>
      var (a, m1) :- Eval(l, cx, m);
      if a != 0 then Val(1, m1) else
      var (b, m2) :- Eval(r, cx, m1);
      Val(Truth(b != 0), m2)
    case CondE(c, t, f) =>
      var (a, m1) :- Eval(c, cx, m);
      if a != 0 then Eval(t, cx, m1) else Eval(f, cx, m1)
    case Assign(lv, a, byte) => EvalAssign(lv, a, byte, cx, m)
    case AssOp(lv, a, op, byte) => EvalAssOp(lv, a, op, byte, cx, m)
    case Comma(l, r) => var (_, m1) :- Eval(l, cx, m); Eval(r, cx, m1)
    case CommaL(lv, r) => var (_, m1) :- EvalL(lv, cx, m); Eval(r, cx, m1)
  }

  /** The address of an lvalue. */
  function EvalL(lv: LVal, cx: Ctx, m: Memory): Result
    decreases LSize(lv), 0
  {
    match lv
    case Plain(v) => Val(AddrOf(cx, v), m)
    case Indirect(e) => Eval(e, cx, m)
  }

  function EvalBin(op: BinOp, l: Expr, r: Expr, cx: Ctx, m: Memory): Result
    decreases Size(l) + Size(r) + 1, 0
  {
    if Simple(op) && Late(r) then
      var (a, m1) :- Eval(l, cx, m);
      var (b, m2) :- Eval(r, cx, m1);
      Val(Apply(op, a, b), m2)
    else
      var (b, m1) :- Eval(r, cx, m);
      var (a, m2) :- Eval(l, cx, m1);
      Val(Apply(op, a, b), m2)
  }

  function EvalRInd(a: Expr, byte: bool, cx: Ctx, m: Memory): Result
    decreases Size(a), 2
  {
    if Auto(a) then
      var (p, m1) :- Load(cx, m, AddrOf(cx, a.lv.v), false);
      var (v, m2) :- Load(cx, m1, AutoAddr(a, p), byte);
      var (_, m3) :- Store(cx, m2, AddrOf(cx, a.lv.v), AutoNext(a, p), false);
      Val(v, m3)
    else if a.Bin? && a.op.Add? then
      var (p, m1) :- Eval(a.l, cx, m);
      var (q, m2) :- Eval(a.r, cx, m1);
      Load(cx, m2, Wrap(p + q), byte)
    else
      var (p, m1) :- Eval(a, cx, m);
      Load(cx, m1, p, byte)
  }

  function EvalAssign(lv: LVal, e: Expr, byte: bool, cx: Ctx, m: Memory): Result
    decreases LSize(lv) + Size(e), 3
  {
    if lv.Indirect? && Auto(lv.e) then
      var (w, m1) :- Eval(e, cx, m);
      var (p, m2) :- Load(cx, m1, AddrOf(cx, lv.e.lv.v), false);
      var (_, m3) :- Store(cx, m2, AutoAddr(lv.e, p), w, byte);
      var (_, m4) :- Store(cx, m3, AddrOf(cx, lv.e.lv.v), AutoNext(lv.e, p), false);
      Val(w, m4)
    else if SimpleRhs(e) then
      var (a, m1) :- EvalL(lv, cx, m);
      var (w, m2) :- Eval(e, cx, m1);
      Store(cx, m2, a, w, byte)
    else
      var (w, m1) :- Eval(e, cx, m);
      var (a, m2) :- EvalL(lv, cx, m1);
      Store(cx, m2, a, w, byte)
  }

  function EvalAssOp(lv: LVal, e: Expr, op: BinOp, byte: bool, cx: Ctx, m: Memory): Result
    decreases LSize(lv) + Size(e), 3
  {
    if Simple(op) && Late(e) then
      var (a, m1) :- EvalL(lv, cx, m);
      var (v, m2) :- Load(cx, m1, a, byte);
      var (w, m3) :- Eval(e, cx, m2);
      Store(cx, m3, a, Apply(op, v, w), byte)
    else
      var (w, m1) :- Eval(e, cx, m);
      var (a, m2) :- EvalL(lv, cx, m1);
      var (v, m3) :- Load(cx, m2, a, byte);
      Store(cx, m3, a, Apply(op, v, w), byte)
  }
}
