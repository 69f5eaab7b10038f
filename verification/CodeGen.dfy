/**
  What the code generator emits for an expression: the instructions, the next unused label
  and the `control` flag (false when the last thing emitted was an unconditional jump that
  no label follows).
 */
module CodeGen {
  import opened Machine
  import opened Source

  datatype Gen = Gen(code: seq<Instr>, next: nat, control: bool) {
    function Plus(more: seq<Instr>): Gen { this.(code := code + more) }
  }

  // ---------- operands ----------

  function VarMode(v: Var): Mode {
    match v
    case GVar(n) => OffY(n)
    case LVar(n) => OffU(n)
  }

  /** The second byte of a word variable. */
  function VarMode1(v: Var): Mode {
    match v
    case GVar(n) => OffY(n + 1)
    case LVar(n) => OffU(n + 1)
  }

  function IndMode(v: Var): Mode {
    match v
    case GVar(n) => IndY(n)
    case LVar(n) => IndU(n)
  }

  function LoadOp(byte: bool, m: Mode): Instr { if byte then Ldb(m) else Ldd(m) }

  function StoreOp(byte: bool, m: Mode): Instr { if byte then Stb(m) else Std(m) }

  function Sextend(byte: bool): seq<Instr> { if byte then [Sex] else [] }

  /** `oprt`: combine D with an operand that needs no stack. */
  function Oprt(op: BinOp, e: Expr): seq<Instr>
    requires Late(e)
  {
    if e.RVar? then
      if op.Add? then [Addd(VarMode(e.v))]
      else if op.Sub? then [Subd(VarMode(e.v))]
      else [BitA(BitsOf(op), VarMode(e.v)), BitB(BitsOf(op), VarMode1(e.v))]
    else
      if op.Add? then [Addd(Imm(e.c))]
      else if op.Sub? then [Subd(Imm(e.c))]
      else [BitA(BitsOf(op), Imm(e.c / 0x100 % 0x100)), BitB(BitsOf(op), Imm(e.c % 0x100))]
  }

  /** `tosop`: combine D with the word on top of the stack. */
  function TosOp(op: BinOp): seq<Instr> {
    if op.Add? then [Addd(SInc(2))]
    else if op.Sub? then [Subd(SInc(2))]
    else if Simple(op) then [BitA(BitsOf(op), SInc(1)), BitB(BitsOf(op), SInc(1))]
    else [PulsX, Lbsr(LibOf(op))]
  }

  // ---------- multiplication by a small constant ----------

  predicate SmallMul(op: BinOp, r: Expr) {
    (op.Mul? || op.UMul?) && r.Const? && 0 < r.c <= 10
  }

  /** `asld`, j times */
  function Shifts(j: nat): seq<Instr> {
    if j == 0 then [] else [Aslb, Rola] + Shifts(j - 1)
  }

  /** Keep D on the stack, double it j times, then add or subtract what was kept. */
  function Combine(j: nat, plus: bool): seq<Instr> {
    [PshsD] + (Shifts(j) + [if plus then Addd(SInc(2)) else Subd(SInc(2))])
  }

  function MulCode(k: int): seq<Instr> {
    match k
    case 2 => Shifts(1)
    case 4 => Shifts(2)
    case 8 => Shifts(3)
    case 3 => Combine(1, true)
    case 6 => Shifts(1) + Combine(1, true)
    case 5 => Combine(2, true)
    case 10 => Shifts(1) + Combine(2, true)
    case 7 => Combine(3, false)
    case 9 => Combine(3, true)
    case _ => []
  }

  // ---------- expressions ----------

  /** `gexpr` on a value: the code leaves it in D. */
  function GenE(e: Expr, n: nat, k: bool): Gen
    decreases Size(e), if IsBool(e) then 4 else 2
  {
    if IsBool(e) then
      var g := GenB(e, true, n, n + 1, k);
      Gen(g.code + [Clra, Clrb, SkipBytes(3), Label(n), Ldd(Imm(1))], g.next, true)
    else match e
    case RVar(v) => Gen([Ldd(VarMode(v))], n, k)
    case CRVar(v) => Gen([Ldb(VarMode(v)), Sex], n, k)
    case Const(c) => Gen(if c != 0 then [Ldd(Imm(c))] else [Clra, Clrb], n, k)
    case Address(v) => Gen([Leax(VarMode(v)), TfrXD], n, k)
    case RInd(a, byte) => GenRInd(a, byte, n, k)
    case Minus(a) => GenE(a, n, k).Plus([Nega, Negb, Sbca(0)])
    case BNot(a) => GenE(a, n, k).Plus([Coma, Comb])
    case PreInc(lv, i) => GenInc(lv, i, n, k)
    case PostInc(lv, i) => GenInc(lv, i, n, k).Plus([Subd(Imm(i))])
    case CStep(lv, up, post) =>
      var step := if up then Inc(OffX(0)) else Dec(OffX(0));
      GenL(lv, n, k).Plus(if post then [Ldb(OffX(0)), step, Sex] else [step, Ldb(OffX(0)), Sex])
    case Bin(op, l, r) => GenBin(op, l, r, n, k)
    case CondE(c, t, f) => GenCond(c, t, f, n, k)
    case Assign(lv, a, byte) => GenAssign(lv, a, byte, n, k)
    case AssOp(lv, a, op, byte) => GenAssOp(lv, a, op, byte, n, k)
    case Comma(l, r) =>
      var g1 := GenE(l, n, k);
      var g2 := GenE(r, g1.next, g1.control);
      Gen(g1.code + g2.code, g2.next, g2.control)
    case CommaL(lv, r) =>
      var g1 := GenL(lv, n, k);
      var g2 := GenE(r, g1.next, g1.control);
      Gen(g1.code + g2.code, g2.next, g2.control)
  }

  function GenCond(c: Expr, t: Expr, f: Expr, n: nat, k: bool): Gen
    decreases Size(c) + Size(t) + Size(f) + 1, 0
  {
    var g1 := GenB(c, false, n, n + 1, k);
    var g2 := GenE(t, g1.next, g1.control);
    var g3 := GenE(f, g2.next + 1, true);
    Gen(g1.code + (g2.code + ([Jmp(g2.next), Label(n)] + (g3.code + [Label(g2.next)]))), g3.next, true)
  }

  /** `gexpr` on an lvalue: the code leaves its address in X. */
  function GenL(lv: LVal, n: nat, k: bool): Gen
    decreases LSize(lv), 0
  {
    match lv
    case Plain(v) => Gen([Leax(VarMode(v))], n, k)
    case Indirect(e) => GenAddr(e, n, k)
  }

  /** `indirect` */
  function GenAddr(e: Expr, n: nat, k: bool): Gen
    decreases Size(e), 5
  {
    if e.RVar? then Gen([Ldx(VarMode(e.v))], n, k)
    else if e.Bin? && e.op.Add? && e.l.Address? then
      GenE(e.r, n, k).Plus([Leax(VarMode(e.l.v)), Leax(DX)])
    else if e.Bin? && e.op.Add? && e.r.RVar? then
      GenE(e.l, n, k).Plus([Ldx(VarMode(e.r.v)), Leax(DX)])
    else GenE(e, n, k).Plus([TfrDX])
  }

  /** The increment of a word variable or of the word that an address designates. */
  function GenInc(lv: LVal, i: int, n: nat, k: bool): Gen
    decreases LSize(lv), 1
  {
    if lv.Plain? then Gen([Ldd(VarMode(lv.v)), Addd(Imm(i)), Std(VarMode(lv.v))], n, k)
    else GenL(lv, n, k).Plus([Ldd(OffX(0)), Addd(Imm(i)), Std(OffX(0))])
  }

  /** `machinop`, `binexpr` and the multiplications by small constants. */
  function GenBin(op: BinOp, l: Expr, r: Expr, n: nat, k: bool): Gen
    decreases Size(l) + Size(r) + 1, 0
  {
    if Simple(op) && Late(r) then GenE(l, n, k).Plus(Oprt(op, r))
    else if SmallMul(op, r) then GenE(l, n, k).Plus(MulCode(r.c))
    else
      var g1 := GenE(r, n, k);
      var g2 := GenE(l, g1.next, g1.control);
      Gen(g1.code + ([PshsD] + (g2.code + TosOp(op))), g2.next, g2.control)
  }

  /** `rindirect` */
  function GenRInd(a: Expr, byte: bool, n: nat, k: bool): Gen
    decreases Size(a), 5
  {
    if a.RVar? then Gen([LoadOp(byte, IndMode(a.v))] + Sextend(byte), n, k)
    else if a.Bin? && a.op.Add? then
      if a.l.Address? then
        GenE(a.r, n, k).Plus([Leax(VarMode(a.l.v)), LoadOp(byte, DX)] + Sextend(byte))
      else if a.r.RVar? then
        GenE(a.l, n, k).Plus([Ldx(VarMode(a.r.v)), LoadOp(byte, DX)] + Sextend(byte))
      else if a.r.Const? && a.l.RVar? then
        Gen([Ldx(VarMode(a.l.v)), LoadOp(byte, OffX(a.r.c))] + Sextend(byte), n, k)
      else
        var g1 := GenE(a.l, n, k);
        var g2 := GenE(a.r, g1.next, g1.control);
        Gen(g1.code + ([PshsD] + (g2.code + ([PulsX, LoadOp(byte, DX)] + Sextend(byte)))), g2.next, g2.control)
    else if Auto(a) then
      Gen([Ldx(VarMode(a.lv.v)), LoadOp(byte, AutoMode(a)), Stx(VarMode(a.lv.v))] + Sextend(byte), n, k)
    else GenE(a, n, k).Plus([TfrDX, LoadOp(byte, OffX(0))] + Sextend(byte))
  }

  /** `predecx` and `postincx` */
  function AutoMode(e: Expr): Mode
    requires Auto(e)
  {
    if e.PreInc? then XDec(-e.k) else XInc(e.k)
  }

  /** `assign` */
  function GenAssign(lv: LVal, e: Expr, byte: bool, n: nat, k: bool): Gen
    decreases LSize(lv) + Size(e), 3
  {
    if lv.Plain? then GenE(e, n, k).Plus([StoreOp(byte, VarMode(lv.v))])
    else if lv.e.RVar? then GenE(e, n, k).Plus([StoreOp(byte, IndMode(lv.e.v))])
    else if lv.e.Bin? && lv.e.op.Add? && lv.e.r.Const? && lv.e.l.RVar? then
      GenE(e, n, k).Plus([Ldx(VarMode(lv.e.l.v)), StoreOp(byte, OffX(lv.e.r.c))])
    else if Auto(lv.e) then
      GenE(e, n, k).Plus([Ldx(VarMode(lv.e.lv.v)), StoreOp(byte, AutoMode(lv.e)), Stx(VarMode(lv.e.lv.v))])
    else if SimpleRhs(e) then
      var g1 := GenL(lv, n, k);
      var g2 := GenE(e, g1.next, g1.control);
      Gen(g1.code + (g2.code + [StoreOp(byte, OffX(0))]), g2.next, g2.control)
    else
      var g1 := GenE(e, n, k);
      var g2 := GenL(lv, g1.next, g1.control);
      Gen(g1.code + ([PshsD] + (g2.code + [PulsD, StoreOp(byte, OffX(0))])), g2.next, g2.control)
  }

  /** `assop` */
  function GenAssOp(lv: LVal, e: Expr, op: BinOp, byte: bool, n: nat, k: bool): Gen
    decreases LSize(lv) + Size(e), 3
  {
    if Late(e) && Simple(op) then
      if lv.Plain? then
        Gen([LoadOp(byte, VarMode(lv.v))] + Sextend(byte) + Oprt(op, e) + [StoreOp(byte, VarMode(lv.v))], n, k)
      else
        GenL(lv, n, k).Plus([LoadOp(byte, OffX(0))] + Sextend(byte) + Oprt(op, e) + [StoreOp(byte, OffX(0))])
    else
      var g1 := GenE(e, n, k);
      if lv.Plain? then
        g1.Plus([PshsD] + ([LoadOp(byte, VarMode(lv.v))] + Sextend(byte) + TosOp(op) + [StoreOp(byte, VarMode(lv.v))]))
      else
        var g2 := GenL(lv, g1.next, g1.control);
        Gen(g1.code + ([PshsD] + (g2.code + ([LoadOp(byte, OffX(0))] + Sextend(byte) + TosOp(op) + [StoreOp(byte, OffX(0))]))),
            g2.next, g2.control)
  }

  // ---------- conditions ----------

  /** The branch that `bexpr` picks for a comparison. */
  function CmpBranch(op: CmpOp, cond: bool): Cond {
    match op
    case Gt => if cond then GT else LE
    case UGt => if cond then HI else LS
    case Ge => if cond then GE else LT
    case UGe => if cond then HS else LO
    case Lt => if cond then LT else GE
    case ULt => if cond then LO else HS
    case Le => if cond then LE else GT
    case ULe => if cond then LS else HI
    case Eq => if cond then EQ else NE
    case Neq => if cond then NE else EQ
  }

  function JCond(cond: bool, l: nat): Instr { Branch(if cond then NE else EQ, l) }

  /** Values whose code already leaves Z set for a zero value. */
  predicate SetsFlags(e: Expr) { e.RVar? || (e.RInd? && e.byte) }

  /** `bexpr`: jump to l when the truth of e is `cond`, otherwise fall through. */
  function GenB(e: Expr, cond: bool, l: nat, n: nat, k: bool): Gen
    decreases Size(e), 3
  {
    if SetsFlags(e) then GenE(e, n, k).Plus([JCond(cond, l)])
    else if !IsBool(e) && !e.CRVar? && !e.Const? then GenE(e, n, k).Plus([Subd(Imm(0)), JCond(cond, l)])
    else match e
    case LNot(a) => GenB(a, !cond, l, n, k)
    case Cmp(op, a, b) => GenBin(Sub, a, b, n, k).Plus([Branch(CmpBranch(op, cond), l)])
    case LAnd(a, b) =>
      if cond then
        var g1 := GenB(a, false, n, n + 1, k);
        var g2 := GenB(b, true, l, g1.next, g1.control);
        Gen(g1.code + (g2.code + [Label(n)]), g2.next, true)
      else
        var g1 := GenB(a, false, l, n, k);
        var g2 := GenB(b, false, l, g1.next, g1.control);
        Gen(g1.code + g2.code, g2.next, g2.control)
    case LOr(a, b) =>
      if cond then
        var g1 := GenB(a, true, l, n, k);
        var g2 := GenB(b, true, l, g1.next, g1.control);
        Gen(g1.code + g2.code, g2.next, g2.control)
      else
        var g1 := GenB(a, true, n, n + 1, k);
        var g2 := GenB(b, false, l, g1.next, g1.control);
        Gen(g1.code + (g2.code + [Label(n)]), g2.next, true)
    case CRVar(v) => Gen([Ldb(VarMode(v)), JCond(cond, l)], n, k)
    case Const(c) => if cond == (c != 0) then Gen([Jmp(l)], n, false) else Gen([], n, k)
  }

  // ---------- stack use ----------

  function Max(a: nat, b: nat): nat { if a < b then b else a }

  /** Bytes of stack that the code of an expression needs. */
  function Need(e: Expr): nat
    decreases Size(e), 1
  {
    match e
    case RVar(_) => 0
    case CRVar(_) => 0
    case Const(_) => 0
    case Address(_) => 0
    case RInd(a, _) => if a.Bin? then Max(Need(a), Max(Need(a.l), 2 + Need(a.r))) else Need(a)
    case Minus(a) => Need(a)
    case BNot(a) => Need(a)
    case LNot(a) => Need(a)
    case PreInc(lv, _) => NeedL(lv)
    case PostInc(lv, _) => NeedL(lv)
    case CStep(lv, _, _) => NeedL(lv)
    case Bin(op, l, r) => NeedBin(op, l, r)
    case Cmp(_, l, r) => NeedBin(Sub, l, r)
    case LAnd(l, r) => Max(Need(l), Need(r))
    case LOr(l, r) => Max(Need(l), Need(r))
    case CondE(c, t, f) => Max(Need(c), Max(Need(t), Need(f)))
    case Assign(lv, a, _) => Max(Need(a), 2 + NeedL(lv))
    case AssOp(lv, a, op, _) => Max(Max(Need(a), 2 + NeedL(lv)), NeedOp(op))
    case Comma(l, r) => Max(Need(l), Need(r))
    case CommaL(lv, r) => Max(NeedL(lv), Need(r))
  }

  function NeedL(lv: LVal): nat
    decreases LSize(lv), 0
  {
    if lv.Plain? then 0 else Need(lv.e)
  }

  /** A library call pushes its return address and its own working bytes. */
  function NeedOp(op: BinOp): nat { if Simple(op) then 2 else 9 }

  function NeedBin(op: BinOp, l: Expr, r: Expr): nat
    decreases Size(l) + Size(r) + 1, 0
  {
    Max(Max(Need(r), 2 + Need(l)), NeedOp(op))
  }
}
