/** The main theorem about expressions: their code computes their values. */
module ExprCorrect {
  import opened Machine
  import opened Runtime
  import opened Engine
  import opened Source
  import opened CodeGen
  import opened Labels
  import opened ExprProof
  import opened OpProof
  import opened MulProof
  import opened AccessProof

  /** Code that computes a value, followed by code that changes only D. */
  lemma ThenOnlyD(cx: Ctx, code: seq<Instr>, tail: seq<Instr>, st: Cpu, r: Result)
    requires r.Val? && Computes(cx, code, st, r)
    requires var o := Exec(tail, Exec(code, st).st); o.Fall? && OnlyD(Exec(code, st).st, o.st)
    ensures Exec(code + tail, st) == Exec(tail, Exec(code, st).st)
    ensures After(cx, st, Exec(code + tail, st).st, r.m)
  {
    hide Exec;
    Compose(code, tail, st);
    AfterOnlyD(cx, st, Exec(code, st).st, Exec(tail, Exec(code, st).st).st, r.m);
  }

  lemma ThenAfter(cx: Ctx, code: seq<Instr>, tail: seq<Instr>, st: Cpu, r: Result, m2: Memory)
    requires r.Val? && (Computes(cx, code, st, r) || Points(cx, code, st, r))
    requires var st1 := Exec(code, st).st;
             Exec(tail, st1).Fall? && After(cx, st1, Exec(tail, st1).st, m2)
    ensures Exec(code + tail, st) == Exec(tail, Exec(code, st).st)
    ensures After(cx, st, Exec(code + tail, st).st, m2)
  {
    hide Exec; hide Agree;
    Compose(code, tail, st);
    KeptTrans(cx, st, Exec(code, st).st, Exec(tail, Exec(code, st).st).st, r.m, m2);
  }

  /** Value of the second operand kept on the stack while code for the first one runs. */
  lemma PushThen(cx: Ctx, c1: seq<Instr>, c2: seq<Instr>, tail: seq<Instr>, st: Cpu, m: Memory, need: int, r1: Result)
    requires Ready(cx, st, m, need) && need >= 2
    requires r1.Val? && Computes(cx, c1, st, r1)
    ensures var st1 := Exec(c1, st).st;
            && Ready(cx, Push(st1, r1.v), r1.m, need - 2)
            && Exec(c1 + ([PshsD] + (c2 + tail)), st) == Exec(c2 + tail, Push(st1, r1.v))
            && Ready(cx, st1, r1.m, need)
  {
    hide Exec; hide Do; hide Agree; hide Kept;
    var st1 := Exec(c1, st).st;
    Compose(c1, [PshsD] + (c2 + tail), st);
    ExecCons(PshsD, c2 + tail, st1);
    DoStack(st1);
    AfterReady(cx, st, m, need, st1, r1.m);
    PushReady(cx, st1, r1.m, need, st1.d);
  }

  /** The operand values of a subtraction or comparison. */
  function Left(l: Expr, r: Expr, cx: Ctx, m: Memory): Word
    requires EvalBin(Sub, l, r, cx, m).Val?
  {
    if Late(r) then Eval(l, cx, m).v else Eval(l, cx, Eval(r, cx, m).m).v
  }

  function Right(l: Expr, r: Expr, cx: Ctx, m: Memory): Word
    requires EvalBin(Sub, l, r, cx, m).Val?
  {
    if Late(r) then Eval(r, cx, Eval(l, cx, m).m).v else Eval(r, cx, m).v
  }

  lemma CorrectBin(op: BinOp, l: Expr, r: Expr, n: nat, k: bool, cx: Ctx, st: Cpu, m: Memory)
    requires Sound(l) && Sound(r) && Ready(cx, st, m, NeedBin(op, l, r))
    ensures Computes(cx, GenBin(op, l, r, n, k).code, st, EvalBin(op, l, r, cx, m))
    ensures op.Sub? && EvalBin(op, l, r, cx, m).Val? ==>
              Exec(GenBin(op, l, r, n, k).code, st).st.cc == SubStatus(Left(l, r, cx, m), Right(l, r, cx, m))
    decreases Size(l) + Size(r) + 1, 1
  {
    hide Exec; hide GenBin; hide EvalBin; hide Agree; hide Kept; hide Sound; hide SubStatus; hide Left; hide Right; hide After;
    hide Need; hide Simple; hide Late;
    if EvalBin(op, l, r, cx, m).Val? {
      if Simple(op) && Late(r) {
        CorrectLate(op, l, r, n, k, cx, st, m);
      } else if SmallMul(op, r) {
        CorrectSmallMul(op, l, r, n, k, cx, st, m);
      } else {
        CorrectStacked(op, l, r, n, k, cx, st, m);
      }
    }
  }

  lemma CorrectLate(op: BinOp, l: Expr, r: Expr, n: nat, k: bool, cx: Ctx, st: Cpu, m: Memory)
    requires Sound(l) && Ready(cx, st, m, Need(l))
    requires Simple(op) && Late(r) && EvalBin(op, l, r, cx, m).Val?
    ensures Computes(cx, GenBin(op, l, r, n, k).code, st, EvalBin(op, l, r, cx, m))
    ensures op.Sub? && EvalBin(op, l, r, cx, m).Val? ==>
              Exec(GenBin(op, l, r, n, k).code, st).st.cc == SubStatus(Left(l, r, cx, m), Right(l, r, cx, m))
    decreases Size(l) + Size(r) + 1, 0
  {
    hide Exec; hide Agree; hide Kept; hide Apply; hide Oprt; hide MulCode; hide TosOp; hide Eval; hide GenE; hide Sound; hide Need; hide OnlyD;
    CorrectE(l, n, k, cx, st, m);
    var r1 := Eval(l, cx, m);
    var st1 := Exec(GenE(l, n, k).code, st).st;
    AfterReady(cx, st, m, 0, st1, r1.m);
    OprtCorrect(cx, op, r, st1, r1.m);
    ThenOnlyD(cx, GenE(l, n, k).code, Oprt(op, r), st, r1);
  }

  lemma CorrectSmallMul(op: BinOp, l: Expr, r: Expr, n: nat, k: bool, cx: Ctx, st: Cpu, m: Memory)
    requires Sound(l) && Ready(cx, st, m, NeedBin(op, l, r))
    requires SmallMul(op, r) && EvalBin(op, l, r, cx, m).Val?
    ensures Computes(cx, GenBin(op, l, r, n, k).code, st, EvalBin(op, l, r, cx, m))
    decreases Size(l) + Size(r) + 1, 0
  {
    hide Exec; hide Agree; hide Kept; hide Apply; hide Oprt; hide MulCode; hide TosOp; hide Eval;
    ConstValue(r.c, cx, m);
    CorrectE(l, n, k, cx, st, m);
    var r1 := Eval(l, cx, m);
    var st1 := Exec(GenE(l, n, k).code, st).st;
    AfterReady(cx, st, m, 2, st1, r1.m);
    MulCorrect(cx, r.c, st1, r1.m);
    Compose(GenE(l, n, k).code, MulCode(r.c), st);
    KeptTrans(cx, st, st1, Exec(MulCode(r.c), st1).st, r1.m, r1.m);
    SmallMulValue(op, r1.v, r.c);
  }

  lemma ConstValue(c: int, cx: Ctx, m: Memory)
    ensures Eval(Const(c), cx, m) == Val(Wrap(c), m)
  {}

  lemma CorrectStacked(op: BinOp, l: Expr, r: Expr, n: nat, k: bool, cx: Ctx, st: Cpu, m: Memory)
    requires Sound(l) && Sound(r) && Ready(cx, st, m, NeedBin(op, l, r))
    requires !(Simple(op) && Late(r)) && !SmallMul(op, r) && EvalBin(op, l, r, cx, m).Val?
    ensures Computes(cx, GenBin(op, l, r, n, k).code, st, EvalBin(op, l, r, cx, m))
    ensures op.Sub? && EvalBin(op, l, r, cx, m).Val? ==>
              Exec(GenBin(op, l, r, n, k).code, st).st.cc == SubStatus(Left(l, r, cx, m), Right(l, r, cx, m))
    decreases Size(l) + Size(r) + 1, 0
  {
    hide Exec; hide Agree; hide Kept; hide After; hide Apply; hide TosOp; hide Push; hide Eval; hide GenE; hide Sound; hide Need;
    hide SubStatus; hide NeedOp;
    CorrectE(r, n, k, cx, st, m);
    var g1 := GenE(r, n, k);
    var r1 := Eval(r, cx, m);
    var g2 := GenE(l, g1.next, g1.control);
    var need := NeedBin(op, l, r);
    PushThen(cx, g1.code, g2.code, TosOp(op), st, m, need, r1);
    CorrectE(l, g1.next, g1.control, cx, Push(Exec(g1.code, st).st, r1.v), r1.m);
    StackedTail(cx, op, g1.code, g2.code, st, m, need, r1, Eval(l, cx, r1.m));
  }

  lemma StackedTail(cx: Ctx, op: BinOp, c1: seq<Instr>, c2: seq<Instr>, st: Cpu, m: Memory, need: int, r1: Result, r2: Result)
    requires Ready(cx, st, m, need) && need >= NeedOp(op) && need >= 2
    requires r1.Val? && Computes(cx, c1, st, r1)
    requires r2.Val? && Computes(cx, c2, Push(Exec(c1, st).st, r1.v), r2)
    ensures var code := c1 + ([PshsD] + (c2 + TosOp(op)));
            && Computes(cx, code, st, Val(Apply(op, r2.v, r1.v), r2.m))
            && (op.Sub? ==> Exec(code, st).st.cc == SubStatus(r2.v, r1.v))
  {
    hide Exec; hide Agree; hide Kept; hide Apply; hide TosOp; hide Push; hide Pop; hide Top; hide SubStatus; hide NeedOp;
    PushThen(cx, c1, c2, TosOp(op), st, m, need, r1);
    var st1 := Exec(c1, st).st;
    TosAfter(cx, op, c2, st1, r1.m, need, r1.v, r2);
    KeptTrans(cx, st, st1, Exec(c2 + TosOp(op), Push(st1, r1.v)).st, r1.m, r2.m);
  }

  lemma SmallMulValue(op: BinOp, v: Word, c: int)
    requires (op.Mul? || op.UMul?) && 0 < c <= 10
    ensures Apply(op, v, Wrap(c)) == Wrap(c * v)
  {
    hide Apply; hide Wrap;
    ApplyMul(op, v, Wrap(c));
    WrapSmall(c);
  }

  lemma ApplyMul(op: BinOp, v: Word, w: Word)
    requires op.Mul? || op.UMul?
    ensures Apply(op, v, w) == Wrap(v * w)
  {
    hide Wrap; hide ShiftArith; hide ShiftRight; hide ShiftLeft;
  }

  /** First operand computed below the pushed second one, then combined with it. */
  lemma TosAfter(cx: Ctx, op: BinOp, c2: seq<Instr>, st1: Cpu, m1: Memory, need: int, w: Word, r2: Result)
    requires Ready(cx, st1, m1, need) && need >= NeedOp(op) && need >= 2
    requires r2.Val? && Computes(cx, c2, Push(st1, w), r2)
    ensures var o := Exec(c2 + TosOp(op), Push(st1, w));
            o.Fall? && o.st.d == Apply(op, r2.v, w) && After(cx, st1, o.st, r2.m)
            && (Simple(op) ==> o.st.x == Exec(c2, Push(st1, w)).st.x)
            && (op.Sub? ==> o.st.cc == SubStatus(r2.v, w))
  {
    hide Exec; hide Agree; hide Kept; hide Apply; hide TosOp; hide Push; hide Top;
    var st2 := Exec(c2, Push(st1, w)).st;
    Compose(c2, TosOp(op), Push(st1, w));
    TopKept(cx, st1, m1, need, w, st2, r2.m);
    AfterReady(cx, st1, m1, need, Pop(st2), r2.m);
    TosCorrect(cx, op, st2, r2.m);
    KeptTrans(cx, st1, Pop(st2), Exec(TosOp(op), st2).st, r2.m, r2.m);
  }

  // ---------- values of the simplest trees ----------

  lemma RVarValue(v: Var, cx: Ctx, m: Memory)
    ensures Eval(RVar(v), cx, m) == Load(cx, m, AddrOf(cx, v), false)
  {}

  lemma BinValue(op: BinOp, l: Expr, r: Expr, cx: Ctx, m: Memory)
    ensures Eval(Bin(op, l, r), cx, m) == EvalBin(op, l, r, cx, m)
  {}

  lemma AddressValue(v: Var, cx: Ctx, m: Memory)
    ensures Eval(Address(v), cx, m) == Val(AddrOf(cx, v), m)
  {}

  lemma LateKeeps(e: Expr, cx: Ctx, m: Memory)
    requires SimpleRhs(e) && Eval(e, cx, m).Val?
    ensures Eval(e, cx, m).m == m
  {}

  /** An address plus anything: the order of the operands does not show. */
  lemma AddAddressValue(v: Var, r: Expr, cx: Ctx, m: Memory)
    ensures var sum := Eval(Bin(Add, Address(v), r), cx, m);
            var r1 := Eval(r, cx, m);
            sum == if r1.Val? then Val(Wrap(AddrOf(cx, v) + r1.v), r1.m) else Fault
  {
    hide Load; hide AddrOf; hide Wrap; hide Eval; hide EvalBin; hide Apply;
    BinValue(Add, Address(v), r, cx, m);
    forall m': Memory { AddressValue(v, cx, m'); }
    AddFixed(Address(v), AddrOf(cx, v), r, cx, m);
  }

  lemma AddFixed(l: Expr, a: Word, r: Expr, cx: Ctx, m: Memory)
    requires forall m': Memory :: Eval(l, cx, m') == Val(a, m')
    ensures var r1 := Eval(r, cx, m);
            EvalBin(Add, l, r, cx, m) == if r1.Val? then Val(Wrap(a + r1.v), r1.m) else Fault
  {
    hide Eval; hide Late; hide Wrap; hide Apply;
    if Eval(r, cx, m).Val? { ApplyAdd(a, Eval(r, cx, m).v); }
  }

  lemma ApplyAdd(v: Word, w: Word)
    ensures Apply(Add, v, w) == Wrap(v + w)
  {}

  // ---------- addresses ----------

  lemma LeaxTail(cx: Ctx, v: Var, st: Cpu, m: Memory)
    requires Ready(cx, st, m, 0)
    ensures var o := Exec([Leax(VarMode(v)), Leax(DX)], st);
            o.Fall? && o.st.x == Wrap(AddrOf(cx, v) + st.d) && OnlyDX(st, o.st) && o.st.d == st.d
  {
    hide Do; hide Exec; hide Agree; hide Wrap; hide AddrOf;
    Exec2(Leax(VarMode(v)), Leax(DX), st);
    LeaxVar(cx, v, st, m);
    LeaxDX(Do(Leax(VarMode(v)), st));
  }

  lemma LdxTail(cx: Ctx, v: Var, st: Cpu, m: Memory)
    requires Ready(cx, st, m, 0) && FreeFor(cx, AddrOf(cx, v), false)
    ensures var o := Exec([Ldx(VarMode(v)), Leax(DX)], st);
            o.Fall? && o.st.x == Wrap(ReadWord(m, AddrOf(cx, v)) + st.d) && OnlyDX(st, o.st)
  {
    hide Do; hide Exec; hide Agree; hide Wrap; hide AddrOf; hide ReadWord;
    Exec2(Ldx(VarMode(v)), Leax(DX), st);
    LdxVar(cx, v, st, m);
    LeaxDX(Do(Ldx(VarMode(v)), st));
  }

  lemma CorrectAddr(e: Expr, n: nat, k: bool, cx: Ctx, st: Cpu, m: Memory)
    requires Sound(e) && Ready(cx, st, m, Need(e))
    ensures Points(cx, GenAddr(e, n, k).code, st, Eval(e, cx, m))
    decreases Size(e), 7
  {
    hide Do; hide Exec; hide Agree; hide Eval; hide Load; hide GenE; hide Kept;
    if Eval(e, cx, m).Val? {
      if e.RVar? {
        hide GenE;
        RVarValue(e.v, cx, m);
        AddrRVar(e.v, n, k, cx, st, m);
      } else if e.Bin? && e.op.Add? && (e.l.Address? || e.r.RVar?) {
        AddrSum(e, n, k, cx, st, m);
      } else {
        CorrectE(e, n, k, cx, st, m);
        var st1 := Exec(GenE(e, n, k).code, st).st;
        Exec1(TfrDX, st1);
        MoveX(st1);
        AfterOnlyDX(cx, st1, st1, Do(TfrDX, st1), Eval(e, cx, m).m) by { KeptRefl(cx, st1); }
        ThenAfter(cx, GenE(e, n, k).code, [TfrDX], st, Eval(e, cx, m), Eval(e, cx, m).m);
      }
    }
  }

  lemma AddrRVar(v: Var, n: nat, k: bool, cx: Ctx, st: Cpu, m: Memory)
    requires Ready(cx, st, m, 0) && Load(cx, m, AddrOf(cx, v), false).Val?
    ensures Points(cx, GenAddr(RVar(v), n, k).code, st, Load(cx, m, AddrOf(cx, v), false))
  {
    hide Do; hide Exec; hide Agree; hide ReadWord; hide AddrOf;
    Exec1(Ldx(VarMode(v)), st);
    LdxVar(cx, v, st, m);
    KeptRefl(cx, st);
  }

  lemma AddrSum(e: Expr, n: nat, k: bool, cx: Ctx, st: Cpu, m: Memory)
    requires Sound(e) && Ready(cx, st, m, Need(e)) && Eval(e, cx, m).Val?
    requires e.Bin? && e.op.Add? && (e.l.Address? || e.r.RVar?)
    ensures Points(cx, GenAddr(e, n, k).code, st, Eval(e, cx, m))
    decreases Size(e), 5
  {
    hide Do; hide Exec; hide Agree; hide Eval; hide Load; hide GenE; hide Kept; hide AddrOf; hide ReadWord;
    BinValue(Add, e.l, e.r, cx, m);
    if e.l.Address? {
      AddAddressValue(e.l.v, e.r, cx, m);
      CorrectE(e.r, n, k, cx, st, m);
      var r1 := Eval(e.r, cx, m);
      var st1 := Exec(GenE(e.r, n, k).code, st).st;
      AfterReady(cx, st, m, 0, st1, r1.m);
      LeaxTail(cx, e.l.v, st1, r1.m);
      KeptRefl(cx, st1);
      ThenAfter(cx, GenE(e.r, n, k).code, [Leax(VarMode(e.l.v)), Leax(DX)], st, r1, r1.m);
    } else {
      CorrectE(e.l, n, k, cx, st, m);
      var r1 := Eval(e.l, cx, m);
      var st1 := Exec(GenE(e.l, n, k).code, st).st;
      AfterReady(cx, st, m, 0, st1, r1.m);
      RVarValue(e.r.v, cx, r1.m);
      LoadedWord(cx, r1.m, AddrOf(cx, e.r.v));
      LdxTail(cx, e.r.v, st1, r1.m);
      KeptRefl(cx, st1);
      ThenAfter(cx, GenE(e.l, n, k).code, [Ldx(VarMode(e.r.v)), Leax(DX)], st, r1, r1.m);
    }
  }

  lemma LoadedWord(cx: Ctx, m: Memory, a: Word)
    ensures Load(cx, m, a, false).Val? <==> FreeFor(cx, a, false)
    ensures Load(cx, m, a, false).Val? ==> Load(cx, m, a, false) == Val(ReadWord(m, a), m)
  {}

  // ---------- reading through an address ----------

  lemma LeadLoad(i: Instr, byte: bool, mode: Mode, st: Cpu)
    requires Straight(i)
    ensures Exec([i, LoadOp(byte, mode)] + Sextend(byte), st) == Exec([LoadOp(byte, mode)] + Sextend(byte), Do(i, st))
  {
    hide Do; hide Exec;
    assert [i, LoadOp(byte, mode)] + Sextend(byte) == [i] + ([LoadOp(byte, mode)] + Sextend(byte));
    ExecCons(i, [LoadOp(byte, mode)] + Sextend(byte), st);
  }

  /** One instruction that sets up X, then the load. */
  lemma LeadLoadCorrect(cx: Ctx, i: Instr, byte: bool, mode: Mode, st: Cpu, m: Memory, a: Word)
    requires Straight(i) && OnlyDX(st, Do(i, st)) && Agree(cx, st.mem, m)
    requires (mode.DX? || Fixed(mode)) && Ea(mode, Do(i, st)).0 == a && Load(cx, m, a, byte).Val?
    ensures var o := Exec([i, LoadOp(byte, mode)] + Sextend(byte), st);
            o.Fall? && o.st.d == Load(cx, m, a, byte).v && After(cx, st, o.st, m) && ZSet(o.st)
  {
    hide Do; hide Exec; hide Agree;
    LeadLoad(i, byte, mode, st);
    LoadSeq(cx, byte, mode, Do(i, st), m, a);
    KeptRefl(cx, st);
  }

  lemma CorrectRInd(a: Expr, byte: bool, n: nat, k: bool, cx: Ctx, st: Cpu, m: Memory)
    requires Sound(a) && Ready(cx, st, m, Need(RInd(a, byte)))
    ensures Computes(cx, GenRInd(a, byte, n, k).code, st, EvalRInd(a, byte, cx, m))
    ensures byte && EvalRInd(a, byte, cx, m).Val? ==> ZSet(Exec(GenRInd(a, byte, n, k).code, st).st)
    decreases Size(a), 8
  {
    hide Do; hide Exec; hide Agree; hide Eval; hide Load; hide GenE; hide Kept; hide EvalRInd; hide GenRInd; hide Sound;
    if EvalRInd(a, byte, cx, m).Val? {
      if a.RVar? {
        RIndRVar(a.v, byte, n, k, cx, st, m);
      } else if a.Bin? && a.op.Add? {
        if a.l.Address? || a.r.RVar? {
          RIndSum(a, byte, n, k, cx, st, m);
        } else if a.r.Const? && a.l.RVar? {
          RIndField(a, byte, n, k, cx, st, m);
        } else {
          RIndStacked(a, byte, n, k, cx, st, m);
        }
      } else if Auto(a) {
        RIndAuto(a, byte, n, k, cx, st, m);
      } else {
        RIndPlain(a, byte, n, k, cx, st, m);
      }
    }
  }

  lemma RIndRVar(v: Var, byte: bool, n: nat, k: bool, cx: Ctx, st: Cpu, m: Memory)
    requires Ready(cx, st, m, 0) && EvalRInd(RVar(v), byte, cx, m).Val?
    ensures Computes(cx, GenRInd(RVar(v), byte, n, k).code, st, EvalRInd(RVar(v), byte, cx, m))
    ensures byte && EvalRInd(RVar(v), byte, cx, m).Val? ==> ZSet(Exec(GenRInd(RVar(v), byte, n, k).code, st).st)
  {
    hide Do; hide Exec; hide Agree; hide Eval; hide AddrOf; hide ReadWord;
    RVarValue(v, cx, m);
    var p := ReadWord(m, AddrOf(cx, v));
    IndAddr(cx, v, st, m);
    LoadSeq(cx, byte, IndMode(v), st, m, p);
    KeptRefl(cx, st);
  }

  lemma IndAddr(cx: Ctx, v: Var, st: Cpu, m: Memory)
    requires Ready(cx, st, m, 0) && FreeFor(cx, AddrOf(cx, v), false)
    ensures Ea(IndMode(v), st) == (ReadWord(m, AddrOf(cx, v)), st)
  {
    AgreeRead(cx, st.mem, m, AddrOf(cx, v));
  }

  lemma RIndSum(a: Expr, byte: bool, n: nat, k: bool, cx: Ctx, st: Cpu, m: Memory)
    requires Sound(a) && Ready(cx, st, m, Need(RInd(a, byte)))
    requires a.Bin? && a.op.Add? && (a.l.Address? || a.r.RVar?) && EvalRInd(a, byte, cx, m).Val?
    ensures Computes(cx, GenRInd(a, byte, n, k).code, st, EvalRInd(a, byte, cx, m))
    ensures byte && EvalRInd(a, byte, cx, m).Val? ==> ZSet(Exec(GenRInd(a, byte, n, k).code, st).st)
    decreases Size(a), 5
  {
    hide Do; hide Exec; hide Agree; hide Eval; hide GenE; hide Kept; hide AddrOf; hide ReadWord; hide Load;
    if a.l.Address? {
      AddressValue(a.l.v, cx, m);
      CorrectE(a.r, n, k, cx, st, m);
      var r1 := Eval(a.r, cx, m);
      var st1 := Exec(GenE(a.r, n, k).code, st).st;
      AfterReady(cx, st, m, 0, st1, r1.m);
      LeaxVar(cx, a.l.v, st1, r1.m);
      LeadLoadCorrect(cx, Leax(VarMode(a.l.v)), byte, DX, st1, r1.m, Wrap(AddrOf(cx, a.l.v) + r1.v));
      LoadKeeps(cx, r1.m, Wrap(AddrOf(cx, a.l.v) + r1.v), byte);
      ThenAfter(cx, GenE(a.r, n, k).code, [Leax(VarMode(a.l.v)), LoadOp(byte, DX)] + Sextend(byte), st, r1, r1.m);
    } else {
      CorrectE(a.l, n, k, cx, st, m);
      var r1 := Eval(a.l, cx, m);
      var st1 := Exec(GenE(a.l, n, k).code, st).st;
      AfterReady(cx, st, m, 0, st1, r1.m);
      RVarValue(a.r.v, cx, r1.m);
      LoadedWord(cx, r1.m, AddrOf(cx, a.r.v));
      var q := ReadWord(r1.m, AddrOf(cx, a.r.v));
      LdxVar(cx, a.r.v, st1, r1.m);
      LeadLoadCorrect(cx, Ldx(VarMode(a.r.v)), byte, DX, st1, r1.m, Wrap(r1.v + q));
      LoadKeeps(cx, r1.m, Wrap(r1.v + q), byte);
      ThenAfter(cx, GenE(a.l, n, k).code, [Ldx(VarMode(a.r.v)), LoadOp(byte, DX)] + Sextend(byte), st, r1, r1.m);
    }
  }

  lemma LoadKeeps(cx: Ctx, m: Memory, a: Word, byte: bool)
    ensures Load(cx, m, a, byte).Val? ==> Load(cx, m, a, byte).m == m
    ensures Load(cx, m, a, byte).Val? <==> FreeFor(cx, a, byte)
  {}

  lemma RIndField(a: Expr, byte: bool, n: nat, k: bool, cx: Ctx, st: Cpu, m: Memory)
    requires Ready(cx, st, m, 0)
    requires a.Bin? && a.op.Add? && a.r.Const? && a.l.RVar? && EvalRInd(a, byte, cx, m).Val?
    ensures Computes(cx, GenRInd(a, byte, n, k).code, st, EvalRInd(a, byte, cx, m))
    ensures byte && EvalRInd(a, byte, cx, m).Val? ==> ZSet(Exec(GenRInd(a, byte, n, k).code, st).st)
  {
    hide Do; hide Exec; hide Agree; hide Eval; hide GenE; hide Kept; hide AddrOf; hide ReadWord; hide Load;
    RVarValue(a.l.v, cx, m);
    LoadedWord(cx, m, AddrOf(cx, a.l.v));
    ConstValue(a.r.c, cx, m);
    var p := ReadWord(m, AddrOf(cx, a.l.v));
    WrapAddWrap(p, a.r.c);
    LdxVar(cx, a.l.v, st, m);
    LeadLoadCorrect(cx, Ldx(VarMode(a.l.v)), byte, OffX(a.r.c), st, m, Wrap(p + a.r.c));
    LoadKeeps(cx, m, Wrap(p + a.r.c), byte);
  }

  lemma WrapAddWrap(p: Word, c: int)
    ensures Wrap(p + Wrap(c)) == Wrap(p + c)
  {}

  lemma RIndStacked(a: Expr, byte: bool, n: nat, k: bool, cx: Ctx, st: Cpu, m: Memory)
    requires Sound(a) && Ready(cx, st, m, Need(RInd(a, byte)))
    requires a.Bin? && a.op.Add? && !a.l.Address? && !a.r.RVar? && !(a.r.Const? && a.l.RVar?)
    requires EvalRInd(a, byte, cx, m).Val?
    ensures Computes(cx, GenRInd(a, byte, n, k).code, st, EvalRInd(a, byte, cx, m))
    ensures byte && EvalRInd(a, byte, cx, m).Val? ==> ZSet(Exec(GenRInd(a, byte, n, k).code, st).st)
    decreases Size(a), 5
  {
    hide Do; hide Exec; hide Agree; hide Eval; hide GenE; hide Kept; hide Load; hide Push; hide Sextend;
    var g1 := GenE(a.l, n, k);
    var g2 := GenE(a.r, g1.next, g1.control);
    CorrectE(a.l, n, k, cx, st, m);
    var r1 := Eval(a.l, cx, m);
    var need := Max(2, 2 + Need(a.r));
    PushThen(cx, g1.code, g2.code, [PulsX, LoadOp(byte, DX)] + Sextend(byte), st, m, need, r1);
    var st1 := Exec(g1.code, st).st;
    CorrectE(a.r, g1.next, g1.control, cx, Push(st1, r1.v), r1.m);
    var r2 := Eval(a.r, cx, r1.m);
    PulledLoad(cx, g2.code, byte, st1, r1.m, need, r1.v, r2);
    KeptTrans(cx, st, st1, Exec(g2.code + ([PulsX, LoadOp(byte, DX)] + Sextend(byte)), Push(st1, r1.v)).st, r1.m, r2.m);
  }

  /** The second operand computed below the pushed first one, then the sum dereferenced. */
  lemma PulledLoad(cx: Ctx, c2: seq<Instr>, byte: bool, st1: Cpu, m1: Memory, need: int, p: Word, r2: Result)
    requires Ready(cx, st1, m1, need) && need >= 2
    requires r2.Val? && Computes(cx, c2, Push(st1, p), r2) && Load(cx, r2.m, Wrap(p + r2.v), byte).Val?
    ensures var o := Exec(c2 + ([PulsX, LoadOp(byte, DX)] + Sextend(byte)), Push(st1, p));
            && o.Fall? && o.st.d == Load(cx, r2.m, Wrap(p + r2.v), byte).v
            && After(cx, st1, o.st, r2.m) && Load(cx, r2.m, Wrap(p + r2.v), byte).m == r2.m && ZSet(o.st)
  {
    hide Do; hide Exec; hide Agree; hide Kept; hide Push; hide Top; hide Load; hide Sextend;
    var st2 := Exec(c2, Push(st1, p)).st;
    Compose(c2, [PulsX, LoadOp(byte, DX)] + Sextend(byte), Push(st1, p));
    TopKept(cx, st1, m1, need, p, st2, r2.m);
    DoStack(st2);
    LeadLoad(PulsX, byte, DX, st2);
    LoadKeeps(cx, r2.m, Wrap(p + r2.v), byte);
    LoadSeq(cx, byte, DX, Do(PulsX, st2), r2.m, Wrap(p + r2.v));
    AfterOnlyDX(cx, st1, Pop(st2), Exec([LoadOp(byte, DX)] + Sextend(byte), Do(PulsX, st2)).st, r2.m);
  }

  lemma RIndPlain(a: Expr, byte: bool, n: nat, k: bool, cx: Ctx, st: Cpu, m: Memory)
    requires Sound(a) && Ready(cx, st, m, Need(RInd(a, byte)))
    requires !a.RVar? && !(a.Bin? && a.op.Add?) && !Auto(a) && EvalRInd(a, byte, cx, m).Val?
    ensures Computes(cx, GenRInd(a, byte, n, k).code, st, EvalRInd(a, byte, cx, m))
    ensures byte && EvalRInd(a, byte, cx, m).Val? ==> ZSet(Exec(GenRInd(a, byte, n, k).code, st).st)
    decreases Size(a), 7
  {
    hide Do; hide Exec; hide Agree; hide Eval; hide GenE; hide Kept; hide Load; hide Sextend; hide Sound;
    CorrectE(a, n, k, cx, st, m);
    var r1 := Eval(a, cx, m);
    var st1 := Exec(GenE(a, n, k).code, st).st;
    MoveX(st1);
    LoadKeeps(cx, r1.m, r1.v, byte);
    LeadLoadCorrect(cx, TfrDX, byte, OffX(0), st1, r1.m, r1.v);
    ThenAfter(cx, GenE(a, n, k).code, [TfrDX, LoadOp(byte, OffX(0))] + Sextend(byte), st, r1, r1.m);
  }

  lemma RIndAuto(a: Expr, byte: bool, n: nat, k: bool, cx: Ctx, st: Cpu, m: Memory)
    requires Ready(cx, st, m, 0) && Auto(a) && EvalRInd(a, byte, cx, m).Val?
    ensures Computes(cx, GenRInd(a, byte, n, k).code, st, EvalRInd(a, byte, cx, m))
    ensures byte && EvalRInd(a, byte, cx, m).Val? ==> ZSet(Exec(GenRInd(a, byte, n, k).code, st).st)
  {
    hide Do; hide Exec; hide Agree; hide Eval; hide Kept; hide AddrOf; hide ReadWord; hide WriteWord; hide Ea; hide Sext;
    var v := a.lv.v;
    LoadedWord(cx, m, AddrOf(cx, v));
    var p := ReadWord(m, AddrOf(cx, v));
    LdxVar(cx, v, st, m);
    var s1 := Do(Ldx(VarMode(v)), st);
    AutoEa(a, s1);
    LoadDo(cx, byte, AutoMode(a), s1, m, AutoAddr(a, p));
    var s2 := Do(LoadOp(byte, AutoMode(a)), s1);
    VarOperand(cx, v, s2, m);
    StxDo(cx, VarMode(v), s2, m, AddrOf(cx, v));
    AutoCode(a, byte, n, k, st);
    if byte { MoveSex(Do(Stx(VarMode(v)), s2)); }
  }

  lemma AutoCode(a: Expr, byte: bool, n: nat, k: bool, st: Cpu)
    requires Auto(a)
    ensures var s3 := Do(Stx(VarMode(a.lv.v)), Do(LoadOp(byte, AutoMode(a)), Do(Ldx(VarMode(a.lv.v)), st)));
            Exec(GenRInd(a, byte, n, k).code, st) == Fall(if byte then Do(Sex, s3) else s3)
  {
    hide Do; hide Exec; hide VarMode; hide AutoMode;
    var v := a.lv.v;
    if byte {
      assert GenRInd(a, byte, n, k).code == [Ldx(VarMode(v)), LoadOp(byte, AutoMode(a)), Stx(VarMode(v)), Sex];
      Exec4(Ldx(VarMode(v)), LoadOp(byte, AutoMode(a)), Stx(VarMode(v)), Sex, st);
    } else {
      assert GenRInd(a, byte, n, k).code == [Ldx(VarMode(v)), LoadOp(byte, AutoMode(a)), Stx(VarMode(v))];
      Exec3(Ldx(VarMode(v)), LoadOp(byte, AutoMode(a)), Stx(VarMode(v)), st);
    }
  }

  lemma MoveSex(st: Cpu)
    ensures Do(Sex, st).d == Sext(st.B()) && OnlyD(st, Do(Sex, st)) && ZSet(Do(Sex, st))
  {
    hide Do;
    DoMove(st);
  }

  lemma AutoEa(a: Expr, st: Cpu)
    requires Auto(a)
    ensures var (p, st') := Ea(AutoMode(a), st);
            && p == AutoAddr(a, st.x) && st'.x == AutoNext(a, st.x)
            && st'.d == st.d && OnlyDX(st, st')
  {}

  // ---------- increments ----------

  /** Load a word, add a constant, store it back. */
  lemma IncTail(cx: Ctx, mode: Mode, i: int, st: Cpu, m: Memory, a: Word)
    requires Ready(cx, st, m, 0) && Fixed(mode) && Ea(mode, st) == (a, st) && FreeFor(cx, a, false)
    ensures var o := Exec([Ldd(mode), Addd(Imm(i)), Std(mode)], st);
            var w := Wrap(ReadWord(m, a) + i);
            && o.Fall? && o.st.d == w && Store(cx, m, a, w, false).Val?
            && After(cx, st, o.st, Store(cx, m, a, w, false).m)
  {
    hide Do; hide Exec; hide Agree; hide ReadWord; hide WriteWord; hide Kept; hide Ea;
    LoadDo(cx, false, mode, st, m, a);
    var s1 := Do(Ldd(mode), st);
    DoAddd(Imm(i), s1);
    var s2 := Do(Addd(Imm(i)), s1);
    WrapAddWrap(s1.d, i);
    EaFixed(mode, st, s2);
    StoreDo(cx, false, mode, s2, m, a);
    Exec3(Ldd(mode), Addd(Imm(i)), Std(mode), st);
  }

  lemma PlaceEa(cx: Ctx, v: Var, st: Cpu, m: Memory)
    requires Ready(cx, st, m, 0)
    ensures Fixed(VarMode(v)) && Ea(VarMode(v), st) == (AddrOf(cx, v), st)
  {
    VarOperand(cx, v, st, m);
  }

  /** The result of the increment code: the new value in D. */
  function IncResult(lv: LVal, i: int, cx: Ctx, m: Memory): Result {
    var (a, m1) :- EvalL(lv, cx, m);
    var (v, m2) :- Load(cx, m1, a, false);
    Store(cx, m2, a, Wrap(v + i), false)
  }

  lemma CorrectInc(lv: LVal, i: int, n: nat, k: bool, cx: Ctx, st: Cpu, m: Memory)
    requires SoundL(lv) && Ready(cx, st, m, NeedL(lv))
    ensures Computes(cx, GenInc(lv, i, n, k).code, st, IncResult(lv, i, cx, m))
    decreases LSize(lv), 1
  {
    hide Do; hide Exec; hide Agree; hide ReadWord; hide WriteWord; hide Kept; hide Ea; hide GenL; hide AddrOf; hide EvalL;
    if IncResult(lv, i, cx, m).Val? {
      if lv.Plain? {
        PlainValue(lv.v, cx, m);
        PlaceEa(cx, lv.v, st, m);
        IncTail(cx, VarMode(lv.v), i, st, m, AddrOf(cx, lv.v));
      } else {
        CorrectL(lv, n, k, cx, st, m);
        var r1 := EvalL(lv, cx, m);
        var st1 := Exec(GenL(lv, n, k).code, st).st;
        AfterReady(cx, st, m, 0, st1, r1.m);
        OffX0(st1);
        IncTail(cx, OffX(0), i, st1, r1.m, r1.v);
        ThenAfter(cx, GenL(lv, n, k).code, [Ldd(OffX(0)), Addd(Imm(i)), Std(OffX(0))], st, r1,
                  IncResult(lv, i, cx, m).m);
      }
    }
  }

  lemma OffX0(st: Cpu)
    ensures Ea(OffX(0), st) == (st.x, st)
  {}

  lemma PlainValue(v: Var, cx: Ctx, m: Memory)
    ensures EvalL(Plain(v), cx, m) == Val(AddrOf(cx, v), m)
  {}

  lemma CorrectL(lv: LVal, n: nat, k: bool, cx: Ctx, st: Cpu, m: Memory)
    requires SoundL(lv) && Ready(cx, st, m, NeedL(lv))
    ensures Points(cx, GenL(lv, n, k).code, st, EvalL(lv, cx, m))
    decreases LSize(lv), 0
  {
    hide Do; hide Exec; hide Agree; hide AddrOf; hide Eval; hide GenAddr; hide Sound;
    if lv.Plain? {
      Exec1(Leax(VarMode(lv.v)), st);
      LeaxVar(cx, lv.v, st, m);
      KeptRefl(cx, st);
    } else {
      CorrectAddr(lv.e, n, k, cx, st, m);
    }
  }

  lemma PostIncCorrect(lv: LVal, i: int, n: nat, k: bool, cx: Ctx, st: Cpu, m: Memory)
    requires SoundL(lv) && Ready(cx, st, m, NeedL(lv))
    ensures Computes(cx, GenInc(lv, i, n, k).Plus([Subd(Imm(i))]).code, st, Eval(PostInc(lv, i), cx, m))
    decreases LSize(lv), 2
  {
    hide Do; hide Exec; hide Agree; hide ReadWord; hide WriteWord; hide Kept; hide GenInc; hide AddrOf; hide EvalL;
    if Eval(PostInc(lv, i), cx, m).Val? {
      CorrectInc(lv, i, n, k, cx, st, m);
      var r1 := IncResult(lv, i, cx, m);
      var st1 := Exec(GenInc(lv, i, n, k).code, st).st;
      Exec1(Subd(Imm(i)), st1);
      DoSubd(Imm(i), st1);
      WrapBack(Load(cx, EvalL(lv, cx, m).m, EvalL(lv, cx, m).v, false).v, i);
      ThenOnlyD(cx, GenInc(lv, i, n, k).code, [Subd(Imm(i))], st, r1);
    }
  }

  lemma WrapBack(v: Word, i: int)
    ensures Wrap(Wrap(v + i) - Wrap(i)) == v
  {}

  /** Increment or decrement of a byte through X, and the sign-extended old or new byte. */
  lemma CStepTail(cx: Ctx, up: bool, post: bool, st: Cpu, m: Memory)
    requires Ready(cx, st, m, 0) && Free(cx, st.x)
    ensures var step := if up then Inc(OffX(0)) else Dec(OffX(0));
            var next := Wrap8(m[st.x] as int + if up then 1 else -1);
            var o := Exec(if post then [Ldb(OffX(0)), step, Sex] else [step, Ldb(OffX(0)), Sex], st);
            && o.Fall? && o.st.d == Sext(if post then m[st.x] else next)
            && After(cx, st, o.st, m[st.x := next])
  {
    hide Do; hide Exec; hide Agree; hide Kept; hide Ea; hide Sext;
    var step := if up then Inc(OffX(0)) else Dec(OffX(0));
    var next := Wrap8(m[st.x] as int + if up then 1 else -1);
    if post {
      OffX0(st);
      LoadDo(cx, true, OffX(0), st, m, st.x);
      var s1 := Do(Ldb(OffX(0)), st);
      StepDo(cx, up, s1, m);
      MoveSex(Do(step, s1));
      Exec3(Ldb(OffX(0)), step, Sex, st);
    } else {
      StepDo(cx, up, st, m);
      var s1 := Do(step, st);
      OffX0(s1);
      LoadDo(cx, true, OffX(0), s1, m[st.x := next], st.x);
      var s2 := Do(Ldb(OffX(0)), s1);
      MoveSex(s2);
      Exec3(step, Ldb(OffX(0)), Sex, st);
      AfterOnlyD(cx, st, s1, Do(Sex, s2), m[st.x := next]);
    }
  }

  lemma StepDo(cx: Ctx, up: bool, st: Cpu, m: Memory)
    requires Ready(cx, st, m, 0) && Free(cx, st.x)
    ensures var r := Do(if up then Inc(OffX(0)) else Dec(OffX(0)), st);
            r.d == st.d && r.x == st.x && After(cx, st, r, m[st.x := Wrap8(m[st.x] as int + if up then 1 else -1)])
  {
    hide Do; hide Agree; hide Kept;
    assert st.mem[st.x] == m[st.x] by { SameByte(cx, st, m); }
    DoStep(st);
    AgreeWriteByte(cx, st.mem, m, st.x, Wrap8(m[st.x] as int + if up then 1 else -1), st.s);
  }

  lemma SameByte(cx: Ctx, st: Cpu, m: Memory)
    requires Agree(cx, st.mem, m) && Free(cx, st.x)
    ensures st.mem[st.x] == m[st.x]
  {}

  lemma DoStep(st: Cpu)
    ensures var r := Do(Inc(OffX(0)), st); r == st.(mem := st.mem[st.x := Wrap8(st.mem[st.x] as int + 1)], cc := r.cc)
    ensures var r := Do(Dec(OffX(0)), st); r == st.(mem := st.mem[st.x := Wrap8(st.mem[st.x] as int - 1)], cc := r.cc)
  {}

  lemma CStepCorrect(lv: LVal, up: bool, post: bool, n: nat, k: bool, cx: Ctx, st: Cpu, m: Memory)
    requires SoundL(lv) && Ready(cx, st, m, NeedL(lv))
    ensures Computes(cx, GenE(CStep(lv, up, post), n, k).code, st, Eval(CStep(lv, up, post), cx, m))
    decreases LSize(lv), 2
  {
    hide Do; hide Exec; hide Agree; hide Kept; hide GenL; hide EvalL;
    if Eval(CStep(lv, up, post), cx, m).Val? {
      CorrectL(lv, n, k, cx, st, m);
      var r1 := EvalL(lv, cx, m);
      var st1 := Exec(GenL(lv, n, k).code, st).st;
      AfterReady(cx, st, m, 0, st1, r1.m);
      CStepTail(cx, up, post, st1, r1.m);
      var step := if up then Inc(OffX(0)) else Dec(OffX(0));
      var tail := if post then [Ldb(OffX(0)), step, Sex] else [step, Ldb(OffX(0)), Sex];
      var next := Wrap8(r1.m[r1.v] as int + if up then 1 else -1);
      ThenAfter(cx, GenL(lv, n, k).code, tail, st, r1, r1.m[r1.v := next]);
      SextStep(r1.m[r1.v], up);
    }
  }

  lemma SextStep(b: Byte, up: bool)
    ensures Wrap8(Sext(b) as int + if up then 1 else -1) == Wrap8(b as int + if up then 1 else -1)
    ensures Sext(Wrap8(b as int + if up then 1 else -1)) % 0x100 == Wrap8(b as int + if up then 1 else -1)
  {}

  // ---------- assignments ----------

  /** Addresses that read one variable at most: evaluating them changes nothing. */
  predicate PureAddr(lv: LVal) {
    lv.Plain? || lv.e.RVar? || (lv.e.Bin? && lv.e.op.Add? && lv.e.r.Const? && lv.e.l.RVar?)
  }

  function PureResult(lv: LVal, cx: Ctx, m: Memory): Result
    requires PureAddr(lv)
  {
    if lv.Plain? then Val(AddrOf(cx, lv.v), m)
    else if lv.e.RVar? then Load(cx, m, AddrOf(cx, lv.e.v), false)
    else var (p, _) :- Load(cx, m, AddrOf(cx, lv.e.l.v), false); Val(Wrap(p + lv.e.r.c), m)
  }

  lemma PureAddrValue(lv: LVal, cx: Ctx, m: Memory)
    requires PureAddr(lv)
    ensures EvalL(lv, cx, m) == PureResult(lv, cx, m)
  {
    hide Wrap; hide AddrOf; hide ReadWord;
    if lv.Indirect? && lv.e.Bin? {
      RVarValue(lv.e.l.v, cx, m);
      BinValue(Add, lv.e.l, lv.e.r, cx, m);
      ConstValue(lv.e.r.c, cx, m);
      if Load(cx, m, AddrOf(cx, lv.e.l.v), false).Val? {
        WrapAddWrap(Load(cx, m, AddrOf(cx, lv.e.l.v), false).v, lv.e.r.c);
      }
    }
  }

  lemma PureKeeps(lv: LVal, cx: Ctx, m: Memory)
    requires PureAddr(lv) && EvalL(lv, cx, m).Val?
    ensures EvalL(lv, cx, m).m == m
  {
    PureAddrValue(lv, cx, m);
  }

  /** With such an address it does not matter that a simple value is computed after it. */
  lemma ValueFirst(lv: LVal, e: Expr, byte: bool, cx: Ctx, m: Memory)
    requires PureAddr(lv) && EvalAssign(lv, e, byte, cx, m).Val?
    ensures Eval(e, cx, m).Val? && EvalL(lv, cx, Eval(e, cx, m).m).Val?
    ensures var r1 := Eval(e, cx, m);
            EvalAssign(lv, e, byte, cx, m) == Store(cx, r1.m, EvalL(lv, cx, r1.m).v, r1.v, byte)
  {
    hide Eval; hide EvalL; hide Store;
    if SimpleRhs(e) {
      PureKeeps(lv, cx, m);
      LateKeeps(e, cx, m);
    } else {
      PureKeeps(lv, cx, Eval(e, cx, m).m);
    }
  }

  /** One store after the value is in D. */
  lemma StoreTail(cx: Ctx, byte: bool, mode: Mode, st: Cpu, m: Memory, a: Word)
    requires Ready(cx, st, m, 0) && !mode.Imm? && Ea(mode, st) == (a, st)
    requires Store(cx, m, a, st.d, byte).Val?
    ensures var o := Exec([StoreOp(byte, mode)], st);
            o.Fall? && o.st.d == st.d && After(cx, st, o.st, Store(cx, m, a, st.d, byte).m)
    ensures Store(cx, m, a, st.d, byte).v == st.d
  {
    hide Do; hide Exec; hide Agree; hide Kept; hide Ea; hide WriteWord;
    StoreDo(cx, byte, mode, st, m, a);
    Exec1(StoreOp(byte, mode), st);
  }

  lemma CorrectAssign(lv: LVal, e: Expr, byte: bool, n: nat, k: bool, cx: Ctx, st: Cpu, m: Memory)
    requires SoundL(lv) && Sound(e) && Ready(cx, st, m, Max(Need(e), 2 + NeedL(lv)))
    ensures Computes(cx, GenAssign(lv, e, byte, n, k).code, st, EvalAssign(lv, e, byte, cx, m))
    decreases LSize(lv) + Size(e), 4
  {
    hide Exec; hide GenAssign; hide EvalAssign; hide Agree; hide Kept; hide Sound; hide Need; hide NeedL;
    if EvalAssign(lv, e, byte, cx, m).Val? {
      if PureAddr(lv) {
        AssignPure(lv, e, byte, n, k, cx, st, m);
      } else if Auto(lv.e) {
        AssignAuto(lv, e, byte, n, k, cx, st, m);
      } else if SimpleRhs(e) {
        AssignSimple(lv, e, byte, n, k, cx, st, m);
      } else {
        AssignStacked(lv, e, byte, n, k, cx, st, m);
      }
    }
  }

  lemma AssignPure(lv: LVal, e: Expr, byte: bool, n: nat, k: bool, cx: Ctx, st: Cpu, m: Memory)
    requires Sound(e) && Ready(cx, st, m, Need(e))
    requires PureAddr(lv) && EvalAssign(lv, e, byte, cx, m).Val?
    ensures Computes(cx, GenAssign(lv, e, byte, n, k).code, st, EvalAssign(lv, e, byte, cx, m))
    decreases LSize(lv) + Size(e), 3
  {
    hide Do; hide Exec; hide Agree; hide Kept; hide Eval; hide EvalL; hide Store; hide Load; hide GenE; hide AddrOf;
    hide EvalAssign; hide ReadWord; hide Sound; hide Need; hide Wrap;
    ValueFirst(lv, e, byte, cx, m);
    CorrectE(e, n, k, cx, st, m);
    var r1 := Eval(e, cx, m);
    var st1 := Exec(GenE(e, n, k).code, st).st;
    AfterReady(cx, st, m, 0, st1, r1.m);
    PureAddrValue(lv, cx, r1.m);
    var a := EvalL(lv, cx, r1.m).v;
    var r2 := Store(cx, r1.m, a, r1.v, byte);
    if lv.Plain? {
      PlaceEa(cx, lv.v, st1, r1.m);
      StoreTail(cx, byte, VarMode(lv.v), st1, r1.m, a);
      ThenAfter(cx, GenE(e, n, k).code, [StoreOp(byte, VarMode(lv.v))], st, r1, r2.m);
    } else if lv.e.RVar? {
      LoadedWord(cx, r1.m, AddrOf(cx, lv.e.v));
      IndAddr(cx, lv.e.v, st1, r1.m);
      StoreTail(cx, byte, IndMode(lv.e.v), st1, r1.m, a);
      ThenAfter(cx, GenE(e, n, k).code, [StoreOp(byte, IndMode(lv.e.v))], st, r1, r2.m);
    } else {
      FieldTail(cx, lv.e.l.v, lv.e.r.c, byte, st1, r1.m);
      ThenAfter(cx, GenE(e, n, k).code, [Ldx(VarMode(lv.e.l.v)), StoreOp(byte, OffX(lv.e.r.c))], st, r1, r2.m);
    }
  }

  lemma FieldTail(cx: Ctx, v: Var, c: int, byte: bool, st: Cpu, m: Memory)
    requires Ready(cx, st, m, 0) && Load(cx, m, AddrOf(cx, v), false).Val?
    requires Store(cx, m, Wrap(Load(cx, m, AddrOf(cx, v), false).v + c), st.d, byte).Val?
    ensures var o := Exec([Ldx(VarMode(v)), StoreOp(byte, OffX(c))], st);
            var r := Store(cx, m, Wrap(Load(cx, m, AddrOf(cx, v), false).v + c), st.d, byte);
            o.Fall? && o.st.d == st.d && r.v == st.d && After(cx, st, o.st, r.m)
  {
    hide Do; hide Exec; hide Agree; hide Kept; hide ReadWord; hide Store; hide AddrOf;
    LdxVar(cx, v, st, m);
    var s1 := Do(Ldx(VarMode(v)), st);
    KeptRefl(cx, st);
    StoreTail(cx, byte, OffX(c), s1, m, Wrap(ReadWord(m, AddrOf(cx, v)) + c));
    assert [Ldx(VarMode(v)), StoreOp(byte, OffX(c))] == [Ldx(VarMode(v))] + [StoreOp(byte, OffX(c))];
    ExecCons(Ldx(VarMode(v)), [StoreOp(byte, OffX(c))], st);
    KeptTrans(cx, st, s1, Exec([StoreOp(byte, OffX(c))], s1).st, m,
              Store(cx, m, Wrap(ReadWord(m, AddrOf(cx, v)) + c), st.d, byte).m);
  }

  lemma AssignAuto(lv: LVal, e: Expr, byte: bool, n: nat, k: bool, cx: Ctx, st: Cpu, m: Memory)
    requires Sound(e) && Ready(cx, st, m, Need(e))
    requires lv.Indirect? && Auto(lv.e) && EvalAssign(lv, e, byte, cx, m).Val?
    ensures Computes(cx, GenAssign(lv, e, byte, n, k).code, st, EvalAssign(lv, e, byte, cx, m))
    decreases LSize(lv) + Size(e), 3
  {
    hide Do; hide Exec; hide Agree; hide Kept; hide Eval; hide EvalL; hide Store; hide Load; hide GenE; hide AddrOf;
    hide Sound; hide Need; hide Wrap;
    CorrectE(e, n, k, cx, st, m);
    var r1 := Eval(e, cx, m);
    var st1 := Exec(GenE(e, n, k).code, st).st;
    AfterReady(cx, st, m, 0, st1, r1.m);
    var v := lv.e.lv.v;
    LoadKeeps(cx, r1.m, AddrOf(cx, v), false);
    AutoStore(cx, lv.e, byte, st1, r1.m);
    var p := Load(cx, r1.m, AddrOf(cx, v), false).v;
    var m3 := Store(cx, r1.m, AutoAddr(lv.e, p), r1.v, byte).m;
    var m4 := Store(cx, m3, AddrOf(cx, v), AutoNext(lv.e, p), false).m;
    ThenAfter(cx, GenE(e, n, k).code, [Ldx(VarMode(v)), StoreOp(byte, AutoMode(lv.e)), Stx(VarMode(v))], st, r1, m4);
  }

  lemma AutoStore(cx: Ctx, a: Expr, byte: bool, st: Cpu, m: Memory)
    requires Ready(cx, st, m, 0) && Auto(a)
    requires Load(cx, m, AddrOf(cx, a.lv.v), false).Val?
    requires var p := Load(cx, m, AddrOf(cx, a.lv.v), false).v;
             var r3 := Store(cx, m, AutoAddr(a, p), st.d, byte);
             r3.Val? && Store(cx, r3.m, AddrOf(cx, a.lv.v), AutoNext(a, p), false).Val?
    ensures var o := Exec([Ldx(VarMode(a.lv.v)), StoreOp(byte, AutoMode(a)), Stx(VarMode(a.lv.v))], st);
            var p := Load(cx, m, AddrOf(cx, a.lv.v), false).v;
            var r3 := Store(cx, m, AutoAddr(a, p), st.d, byte);
            && o.Fall? && o.st.d == st.d
            && After(cx, st, o.st, Store(cx, r3.m, AddrOf(cx, a.lv.v), AutoNext(a, p), false).m)
  {
    hide Do; hide Exec; hide Agree; hide Kept; hide ReadWord; hide WriteWord; hide AddrOf; hide Ea;
    var v := a.lv.v;
    LdxVar(cx, v, st, m);
    var s1 := Do(Ldx(VarMode(v)), st);
    KeptRefl(cx, st);
    var p := ReadWord(m, AddrOf(cx, v));
    AutoEa(a, s1);
    StoreDo(cx, byte, AutoMode(a), s1, m, AutoAddr(a, p));
    var s2 := Do(StoreOp(byte, AutoMode(a)), s1);
    var m3 := Store(cx, m, AutoAddr(a, p), st.d, byte).m;
    AutoAfter(cx, a, st, s1, s2, m, m3);
    VarOperand(cx, v, s2, m3);
    StxDo(cx, VarMode(v), s2, m3, AddrOf(cx, v));
    var s3 := Do(Stx(VarMode(v)), s2);
    KeptTrans(cx, st, s2, s3, m3, Store(cx, m3, AddrOf(cx, v), AutoNext(a, p), false).m);
    Exec3(Ldx(VarMode(v)), StoreOp(byte, AutoMode(a)), Stx(VarMode(v)), st);
  }

  lemma AutoAfter(cx: Ctx, a: Expr, st: Cpu, s1: Cpu, s2: Cpu, m: Memory, m3: Memory)
    requires Ready(cx, st, m, 0) && Auto(a) && OnlyDX(st, s1)
    requires OnlyDX(s1, Ea(AutoMode(a), s1).1) && Stored(cx, Ea(AutoMode(a), s1).1, s2, m3)
    ensures After(cx, st, s2, m3) && Ready(cx, s2, m3, 0)
  {
    hide Agree; hide Ea;
  }

  lemma AssignSimple(lv: LVal, e: Expr, byte: bool, n: nat, k: bool, cx: Ctx, st: Cpu, m: Memory)
    requires SoundL(lv) && Sound(e) && Ready(cx, st, m, NeedL(lv))
    requires !PureAddr(lv) && !Auto(lv.e) && SimpleRhs(e) && EvalAssign(lv, e, byte, cx, m).Val?
    ensures Computes(cx, GenAssign(lv, e, byte, n, k).code, st, EvalAssign(lv, e, byte, cx, m))
    decreases LSize(lv) + Size(e), 3
  {
    hide Do; hide Exec; hide Agree; hide Kept; hide Eval; hide EvalL; hide Store; hide GenE; hide GenL; hide AddrOf;
    hide Sound; hide NeedL; hide Wrap;
    CorrectL(lv, n, k, cx, st, m);
    var r1 := EvalL(lv, cx, m);
    var g1 := GenL(lv, n, k);
    var st1 := Exec(g1.code, st).st;
    AfterReady(cx, st, m, 0, st1, r1.m);
    var g2 := GenE(e, g1.next, g1.control);
    SimpleKeepsX(e, g1.next, g1.control, cx, st1, r1.m);
    var st2 := Exec(g2.code, st1).st;
    OffX0(st2);
    var r2 := Eval(e, cx, r1.m);
    AfterReady(cx, st1, r1.m, 0, st2, r2.m);
    StoreTail(cx, byte, OffX(0), st2, r2.m, r1.v);
    var r3 := Store(cx, r2.m, r1.v, r2.v, byte);
    ThenAfter(cx, g2.code, [StoreOp(byte, OffX(0))], st1, r2, r3.m);
    ThenAfter(cx, g1.code, g2.code + [StoreOp(byte, OffX(0))], st, r1, r3.m);
  }

  lemma SimpleKeepsX(e: Expr, n: nat, k: bool, cx: Ctx, st: Cpu, m: Memory)
    requires SimpleRhs(e) && Ready(cx, st, m, 0) && Eval(e, cx, m).Val?
    ensures Computes(cx, GenE(e, n, k).code, st, Eval(e, cx, m))
    ensures OnlyD(st, Exec(GenE(e, n, k).code, st).st)
  {
    hide Do; hide Exec; hide Agree; hide AddrOf; hide ReadWord; hide Sext;
    KeptRefl(cx, st);
    if e.RVar? {
      VarOperand(cx, e.v, st, m);
      RVarValue(e.v, cx, m);
      LoadSeq(cx, false, VarMode(e.v), st, m, AddrOf(cx, e.v));
      assert [Ldd(VarMode(e.v))] + [] == [Ldd(VarMode(e.v))];
    } else if e.CRVar? {
      VarOperand(cx, e.v, st, m);
      LoadSeq(cx, true, VarMode(e.v), st, m, AddrOf(cx, e.v));
      assert [Ldb(VarMode(e.v))] + [Sex] == [Ldb(VarMode(e.v)), Sex];
    } else {
      ConstCode(e.c, st);
    }
  }

  lemma ConstCode(c: int, st: Cpu)
    ensures var o := Exec(if c != 0 then [Ldd(Imm(c))] else [Clra, Clrb], st);
            o.Fall? && o.st.d == Wrap(c) && OnlyD(st, o.st)
  {
    hide Do; hide Exec;
    if c != 0 {
      Exec1(Ldd(Imm(c)), st);
      DoLdd(Imm(c), st);
    } else {
      ClearD(st);
    }
  }

  lemma AssignStacked(lv: LVal, e: Expr, byte: bool, n: nat, k: bool, cx: Ctx, st: Cpu, m: Memory)
    requires SoundL(lv) && Sound(e) && Ready(cx, st, m, Max(Need(e), 2 + NeedL(lv)))
    requires !PureAddr(lv) && !Auto(lv.e) && !SimpleRhs(e) && EvalAssign(lv, e, byte, cx, m).Val?
    ensures Computes(cx, GenAssign(lv, e, byte, n, k).code, st, EvalAssign(lv, e, byte, cx, m))
    decreases LSize(lv) + Size(e), 3
  {
    hide Do; hide Exec; hide Agree; hide Kept; hide Eval; hide EvalL; hide Store; hide GenE; hide GenL; hide AddrOf;
    hide Sound; hide NeedL; hide Wrap; hide Push; hide Need;
    CorrectE(e, n, k, cx, st, m);
    var r1 := Eval(e, cx, m);
    var g1 := GenE(e, n, k);
    var g2 := GenL(lv, g1.next, g1.control);
    var need := 2 + NeedL(lv);
    PushThen(cx, g1.code, g2.code, [PulsD, StoreOp(byte, OffX(0))], st, m, need, r1);
    var st1 := Exec(g1.code, st).st;
    CorrectL(lv, g1.next, g1.control, cx, Push(st1, r1.v), r1.m);
    var r2 := EvalL(lv, cx, r1.m);
    PulledStore(cx, g2.code, byte, st1, r1.m, need, r1.v, r2);
    var r3 := Store(cx, r2.m, r2.v, r1.v, byte);
    KeptTrans(cx, st, st1, Exec(g2.code + [PulsD, StoreOp(byte, OffX(0))], Push(st1, r1.v)).st, r1.m, r3.m);
  }

  lemma PulledStore(cx: Ctx, c2: seq<Instr>, byte: bool, st1: Cpu, m1: Memory, need: int, w: Word, r2: Result)
    requires Ready(cx, st1, m1, need) && need >= 2
    requires r2.Val? && Points(cx, c2, Push(st1, w), r2) && Store(cx, r2.m, r2.v, w, byte).Val?
    ensures var o := Exec(c2 + [PulsD, StoreOp(byte, OffX(0))], Push(st1, w));
            var r3 := Store(cx, r2.m, r2.v, w, byte);
            o.Fall? && o.st.d == w && r3.v == w && After(cx, st1, o.st, r3.m)
  {
    hide Do; hide Exec; hide Agree; hide Kept; hide Push; hide Top; hide Store;
    var st2 := Exec(c2, Push(st1, w)).st;
    Compose(c2, [PulsD, StoreOp(byte, OffX(0))], Push(st1, w));
    TopKept(cx, st1, m1, need, w, st2, r2.m);
    DoStack(st2);
    var st3 := Do(PulsD, st2);
    OffX0(st3);
    assert [PulsD, StoreOp(byte, OffX(0))] == [PulsD] + [StoreOp(byte, OffX(0))];
    ExecCons(PulsD, [StoreOp(byte, OffX(0))], st2);
    AfterOnlyD(cx, st1, Pop(st2), st3, r2.m);
    StoreTail(cx, byte, OffX(0), st3, r2.m, r2.v);
    KeptTrans(cx, st1, st3, Exec([StoreOp(byte, OffX(0))], st3).st, r2.m, Store(cx, r2.m, r2.v, w, byte).m);
  }

  // ---------- compound assignments ----------

  /** Load, combine with an operand that needs no stack, store back. */
  lemma ModifyLate(cx: Ctx, op: BinOp, e: Expr, byte: bool, mode: Mode, st: Cpu, m: Memory, a: Word)
    requires Ready(cx, st, m, 0) && Fixed(mode) && Ea(mode, st) == (a, st)
    requires Simple(op) && Late(e) && Eval(e, cx, m).Val? && FreeFor(cx, a, byte)
    ensures var w := Apply(op, Load(cx, m, a, byte).v, Eval(e, cx, m).v);
            var o := Exec([LoadOp(byte, mode)] + Sextend(byte) + Oprt(op, e) + [StoreOp(byte, mode)], st);
            && o.Fall? && o.st.d == w && After(cx, st, o.st, Store(cx, m, a, w, byte).m)
            && Store(cx, m, a, w, byte).v == w
  {
    hide Do; hide Exec; hide Agree; hide Kept; hide Ea; hide Load; hide Store; hide Apply; hide Eval; hide Oprt; hide Sextend;
    var c1 := [LoadOp(byte, mode)] + Sextend(byte);
    LoadKeeps(cx, m, a, byte);
    LoadSeq(cx, byte, mode, st, m, a);
    var st1 := Exec(c1, st).st;
    OprtCorrect(cx, op, e, st1, m);
    var st2 := Exec(Oprt(op, e), st1).st;
    EaFixed(mode, st, st2);
    StoreOk(cx, m, a, st2.d, byte);
    StoreTail(cx, byte, mode, st2, m, a);
    Compose(c1, Oprt(op, e), st);
    Compose(c1 + Oprt(op, e), [StoreOp(byte, mode)], st);
    KeptRefl(cx, st);
    KeptTrans(cx, st, st2, Exec([StoreOp(byte, mode)], st2).st, m, Store(cx, m, a, st2.d, byte).m);
  }

  lemma StoreOk(cx: Ctx, m: Memory, a: Word, w: Word, byte: bool)
    ensures Store(cx, m, a, w, byte).Val? <==> FreeFor(cx, a, byte)
    ensures Store(cx, m, a, w, byte).Val? ==> Store(cx, m, a, w, byte).v == w
  {}

  lemma AssOpLate(lv: LVal, e: Expr, op: BinOp, byte: bool, n: nat, k: bool, cx: Ctx, st: Cpu, m: Memory)
    requires SoundL(lv) && Ready(cx, st, m, NeedL(lv))
    requires Simple(op) && Late(e) && EvalAssOp(lv, e, op, byte, cx, m).Val?
    ensures Computes(cx, GenAssOp(lv, e, op, byte, n, k).code, st, EvalAssOp(lv, e, op, byte, cx, m))
    decreases LSize(lv) + Size(e), 3
  {
    hide Do; hide Exec; hide Agree; hide Kept; hide Ea; hide Load; hide Store; hide Apply; hide Eval; hide EvalL; hide Oprt;
    hide Sextend; hide AddrOf; hide Sound; hide GenL; hide NeedL;
    var r1 := EvalL(lv, cx, m);
    LoadKeeps(cx, r1.m, r1.v, byte);
    LateKeeps(e, cx, r1.m);
    if lv.Plain? {
      PlainValue(lv.v, cx, m);
      PlaceEa(cx, lv.v, st, m);
      ModifyLate(cx, op, e, byte, VarMode(lv.v), st, m, AddrOf(cx, lv.v));
    } else {
      CorrectL(lv, n, k, cx, st, m);
      var st1 := Exec(GenL(lv, n, k).code, st).st;
      AfterReady(cx, st, m, 0, st1, r1.m);
      OffX0(st1);
      ModifyLate(cx, op, e, byte, OffX(0), st1, r1.m, r1.v);
      ThenAfter(cx, GenL(lv, n, k).code, [LoadOp(byte, OffX(0))] + Sextend(byte) + Oprt(op, e) + [StoreOp(byte, OffX(0))],
                st, r1, EvalAssOp(lv, e, op, byte, cx, m).m);
    }
  }

  /** Load, combine with the pushed operand, store back. */
  lemma ModifyStacked(cx: Ctx, op: BinOp, byte: bool, mode: Mode, st: Cpu, m: Memory, a: Word)
    requires st.s <= 0xfffd && Ready(cx, Pop(st), m, NeedOp(op)) && Fixed(mode) && Ea(mode, st) == (a, st)
    requires FreeFor(cx, a, byte) && (mode.OffX? ==> Simple(op))
    ensures var w := Apply(op, Load(cx, m, a, byte).v, Top(st));
            var o := Exec([LoadOp(byte, mode)] + Sextend(byte) + TosOp(op) + [StoreOp(byte, mode)], st);
            && o.Fall? && o.st.d == w && After(cx, Pop(st), o.st, Store(cx, m, a, w, byte).m)
            && Store(cx, m, a, w, byte).v == w
  {
    hide Do; hide Exec; hide Agree; hide Kept; hide Ea; hide Load; hide Store; hide Apply; hide TosOp; hide Sextend; hide ReadWord;
    var c1 := [LoadOp(byte, mode)] + Sextend(byte);
    LoadKeeps(cx, m, a, byte);
    LoadSeq(cx, byte, mode, st, m, a);
    var st1 := Exec(c1, st).st;
    TosCorrect(cx, op, st1, m);
    var st2 := Exec(TosOp(op), st1).st;
    EaMoved(mode, st, st2);
    StoreOk(cx, m, a, st2.d, byte);
    StoreTail(cx, byte, mode, st2, m, a);
    Compose(c1, TosOp(op), st);
    Compose(c1 + TosOp(op), [StoreOp(byte, mode)], st);
    KeptTrans(cx, Pop(st), st2, Exec([StoreOp(byte, mode)], st2).st, m, Store(cx, m, a, st2.d, byte).m);
  }

  lemma EaMoved(mode: Mode, st: Cpu, st': Cpu)
    requires Fixed(mode) && st'.y == st.y && st'.u == st.u && (mode.OffX? ==> st'.x == st.x)
    ensures Ea(mode, st').0 == Ea(mode, st).0 && Ea(mode, st').1 == st'
  {}

  lemma AssOpStacked(lv: LVal, e: Expr, op: BinOp, byte: bool, n: nat, k: bool, cx: Ctx, st: Cpu, m: Memory)
    requires SoundL(lv) && Sound(e) && Ready(cx, st, m, Max(Max(Need(e), 2 + NeedL(lv)), NeedOp(op)))
    requires lv.Plain? || Simple(op)
    requires !(Simple(op) && Late(e)) && EvalAssOp(lv, e, op, byte, cx, m).Val?
    ensures Computes(cx, GenAssOp(lv, e, op, byte, n, k).code, st, EvalAssOp(lv, e, op, byte, cx, m))
    decreases LSize(lv) + Size(e), 3
  {
    hide Do; hide Exec; hide Agree; hide Kept; hide Ea; hide Load; hide Store; hide Apply; hide Eval; hide EvalL; hide TosOp;
    hide Sextend; hide AddrOf; hide Sound; hide GenL; hide GenE; hide Push; hide Need;
    CorrectE(e, n, k, cx, st, m);
    var r1 := Eval(e, cx, m);
    var g1 := GenE(e, n, k);
    var st1 := Exec(g1.code, st).st;
    var r2 := EvalL(lv, cx, r1.m);
    LoadKeeps(cx, r2.m, r2.v, byte);
    var need := Max(2 + NeedL(lv), NeedOp(op));
    if lv.Plain? {
      var tail := [LoadOp(byte, VarMode(lv.v))] + Sextend(byte) + TosOp(op) + [StoreOp(byte, VarMode(lv.v))];
      PlainValue(lv.v, cx, r1.m);
      AssOpPlainTail(cx, lv.v, op, byte, g1.code, st, m, need, r1);
      assert g1.code + ([PshsD] + tail) == GenAssOp(lv, e, op, byte, n, k).code;
    } else {
      var g2 := GenL(lv, g1.next, g1.control);
      var tail := [LoadOp(byte, OffX(0))] + Sextend(byte) + TosOp(op) + [StoreOp(byte, OffX(0))];
      PushThen(cx, g1.code, g2.code, tail, st, m, need, r1);
      CorrectL(lv, g1.next, g1.control, cx, Push(st1, r1.v), r1.m);
      AssOpTail(cx, g2.code, op, byte, OffX(0), st1, r1.m, need, r1.v, r2);
      KeptTrans(cx, st, st1, Exec(g2.code + tail, Push(st1, r1.v)).st, r1.m, EvalAssOp(lv, e, op, byte, cx, m).m);
    }
  }

  lemma AssOpPlainTail(cx: Ctx, v: Var, op: BinOp, byte: bool, code: seq<Instr>, st: Cpu, m: Memory, need: int, r1: Result)
    requires Ready(cx, st, m, need) && need >= NeedOp(op)
    requires r1.Val? && Computes(cx, code, st, r1) && FreeFor(cx, AddrOf(cx, v), byte)
    ensures var tail := [LoadOp(byte, VarMode(v))] + Sextend(byte) + TosOp(op) + [StoreOp(byte, VarMode(v))];
            var w := Apply(op, Load(cx, r1.m, AddrOf(cx, v), byte).v, r1.v);
            var o := Exec(code + ([PshsD] + tail), st);
            && o.Fall? && o.st.d == w && After(cx, st, o.st, Store(cx, r1.m, AddrOf(cx, v), w, byte).m)
            && Store(cx, r1.m, AddrOf(cx, v), w, byte).v == w
  {
    hide Do; hide Exec; hide Agree; hide Kept; hide Ea; hide Load; hide Store; hide Apply; hide TosOp; hide Sextend; hide AddrOf; hide Push; hide Top;
    var st1 := Exec(code, st).st;
    var tail := [LoadOp(byte, VarMode(v))] + Sextend(byte) + TosOp(op) + [StoreOp(byte, VarMode(v))];
    assert [] + tail == tail;
    PushThen(cx, code, [], tail, st, m, need, r1);
    var st2 := Push(st1, r1.v);
    KeptRefl(cx, st2);
    TopKept(cx, st1, r1.m, need, r1.v, st2, r1.m);
    AfterReady(cx, st1, r1.m, need, Pop(st2), r1.m);
    PlaceEa(cx, v, st2, r1.m);
    ModifyStacked(cx, op, byte, VarMode(v), st2, r1.m, AddrOf(cx, v));
    LoadKeeps(cx, r1.m, AddrOf(cx, v), byte);
    var w := Apply(op, Load(cx, r1.m, AddrOf(cx, v), byte).v, r1.v);
    StoreOk(cx, r1.m, AddrOf(cx, v), w, byte);
    var m2 := Store(cx, r1.m, AddrOf(cx, v), w, byte).m;
    KeptTrans(cx, st1, Pop(st2), Exec(tail, st2).st, r1.m, m2);
    KeptTrans(cx, st, st1, Exec(tail, st2).st, r1.m, m2);
  }

  lemma AssOpTail(cx: Ctx, c2: seq<Instr>, op: BinOp, byte: bool, mode: Mode, st1: Cpu, m1: Memory, need: int, w: Word, r2: Result)
    requires Ready(cx, st1, m1, need) && need >= NeedOp(op) && mode == OffX(0) && Simple(op)
    requires r2.Val? && Points(cx, c2, Push(st1, w), r2) && FreeFor(cx, r2.v, byte)
    ensures var tail := [LoadOp(byte, mode)] + Sextend(byte) + TosOp(op) + [StoreOp(byte, mode)];
            var v := Apply(op, Load(cx, r2.m, r2.v, byte).v, w);
            var o := Exec(c2 + tail, Push(st1, w));
            && o.Fall? && o.st.d == v && After(cx, st1, o.st, Store(cx, r2.m, r2.v, v, byte).m)
            && Store(cx, r2.m, r2.v, v, byte).v == v
  {
    hide Do; hide Exec; hide Agree; hide Kept; hide Ea; hide Load; hide Store; hide Apply; hide TosOp; hide Sextend; hide Push; hide Top;
    var tail := [LoadOp(byte, mode)] + Sextend(byte) + TosOp(op) + [StoreOp(byte, mode)];
    var st2 := Exec(c2, Push(st1, w)).st;
    Compose(c2, tail, Push(st1, w));
    TopKept(cx, st1, m1, need, w, st2, r2.m);
    AfterReady(cx, st1, m1, need, Pop(st2), r2.m);
    OffX0(st2);
    ModifyStacked(cx, op, byte, mode, st2, r2.m, r2.v);
    LoadKeeps(cx, r2.m, r2.v, byte);
    var v := Apply(op, Load(cx, r2.m, r2.v, byte).v, w);
    StoreOk(cx, r2.m, r2.v, v, byte);
    KeptTrans(cx, st1, Pop(st2), Exec(tail, st2).st, r2.m, Store(cx, r2.m, r2.v, v, byte).m);
  }

  // ---------- conditions ----------

  /** What the branch of `rexpr` sees after SUBD. */
  lemma CompareFlags(op: CmpOp, cond: bool, a: Word, b: Word, st: Cpu)
    requires st.cc == SubStatus(a, b)
    ensures Holds(CmpBranch(op, cond), st.cc) == (Compares(op, a, b) == cond)
  {
    assert st.cc.z == (a == b);
    assert st.cc.c == (a < b);
    assert (st.cc.n != st.cc.v) == (Signed(a) < Signed(b));
  }

  /** A branch at the end of code that falls through. */
  lemma BranchTail(c: Cond, l: nat, st: Cpu)
    ensures Exec([Branch(c, l)], st) == if Holds(c, st.cc) then Goto(l, st) else Fall(st)
  {
    hide Do; hide Holds;
    assert [Branch(c, l)][1..] == [];
  }

  lemma CmpResult(op: CmpOp, l: Expr, r: Expr, cx: Ctx, m: Memory)
    ensures Eval(Cmp(op, l, r), cx, m).Val? <==> EvalBin(Sub, l, r, cx, m).Val?
    ensures EvalBin(Sub, l, r, cx, m).Val? ==>
              Eval(Cmp(op, l, r), cx, m) ==
              Val(Truth(Compares(op, Left(l, r, cx, m), Right(l, r, cx, m))), EvalBin(Sub, l, r, cx, m).m)
  {
    hide Compares; hide Apply; hide Truth;
  }

  lemma CmpCorrect(op: CmpOp, l: Expr, r: Expr, cond: bool, lb: nat, n: nat, k: bool, cx: Ctx, st: Cpu, m: Memory)
    requires Sound(l) && Sound(r) && Ready(cx, st, m, NeedBin(Sub, l, r))
    ensures Decides(cx, GenBin(Sub, l, r, n, k).code + [Branch(CmpBranch(op, cond), lb)], st, cond, lb, Eval(Cmp(op, l, r), cx, m))
    decreases Size(l) + Size(r) + 1, 2
  {
    hide Do; hide Exec; hide Agree; hide Kept; hide GenBin; hide EvalBin; hide Eval; hide Holds; hide Compares; hide CmpBranch;
    hide Left; hide Right; hide SubStatus; hide Sound; hide NeedBin; hide After;
    if Eval(Cmp(op, l, r), cx, m).Val? {
      CmpResult(op, l, r, cx, m);
      CorrectBin(Sub, l, r, n, k, cx, st, m);
      var code := GenBin(Sub, l, r, n, k).code;
      var st1 := Exec(code, st).st;
      CompareFlags(op, cond, Left(l, r, cx, m), Right(l, r, cx, m), st1);
      BranchTail(CmpBranch(op, cond), lb, st1);
      ExecAppend(code, [Branch(CmpBranch(op, cond), lb)], st);
    }
  }

  /** A value in D whose zero test is through Z. */
  lemma TestD(cx: Ctx, code: seq<Instr>, st: Cpu, cond: bool, l: nat, r: Result)
    requires Computes(cx, code, st, r)
    ensures Decides(cx, code + [Subd(Imm(0)), JCond(cond, l)], st, cond, l, r)
  {
    hide Do; hide Exec; hide Agree; hide Kept; hide Holds;
    if r.Val? {
      var st1 := Exec(code, st).st;
      Compose(code, [Subd(Imm(0)), JCond(cond, l)], st);
      assert [Subd(Imm(0)), JCond(cond, l)] == [Subd(Imm(0))] + [JCond(cond, l)];
      ExecCons(Subd(Imm(0)), [JCond(cond, l)], st1);
      var st2 := Do(Subd(Imm(0)), st1);
      SubZero(st1);
      BranchTail(if cond then NE else EQ, l, st2);
      EqNe(st2.cc);
      AfterOnlyD(cx, st, st1, st2, r.m);
    }
  }

  lemma SubZero(st: Cpu)
    ensures var r := Do(Subd(Imm(0)), st); OnlyD(st, r) && r.cc.z == (st.d == 0)
  {
    hide Do;
    DoSubd(Imm(0), st);
  }

  lemma EqNe(f: Flags)
    ensures Holds(EQ, f) == f.z && Holds(NE, f) == !f.z
  {}

  /** Code that leaves Z equal to `value is zero`. */
  lemma TestZ(cx: Ctx, code: seq<Instr>, st: Cpu, cond: bool, l: nat, r: Result)
    requires r.Val? ==> Exec(code, st).Fall? && After(cx, st, Exec(code, st).st, r.m) && Exec(code, st).st.cc.z == (r.v == 0)
    ensures Decides(cx, code + [JCond(cond, l)], st, cond, l, r)
  {
    hide Do; hide Exec; hide Agree; hide Kept; hide Holds;
    if r.Val? {
      var st1 := Exec(code, st).st;
      Compose(code, [JCond(cond, l)], st);
      BranchTail(if cond then NE else EQ, l, st1);
      EqNe(st1.cc);
    }
  }

  lemma RVarTest(v: Var, cond: bool, l: nat, n: nat, k: bool, cx: Ctx, st: Cpu, m: Memory)
    requires Ready(cx, st, m, 0)
    ensures Decides(cx, GenE(RVar(v), n, k).code + [JCond(cond, l)], st, cond, l, Eval(RVar(v), cx, m))
  {
    hide Do; hide Exec; hide Agree; hide AddrOf; hide ReadWord;
    RVarValue(v, cx, m);
    if Eval(RVar(v), cx, m).Val? {
      VarOperand(cx, v, st, m);
      LoadSeq(cx, false, VarMode(v), st, m, AddrOf(cx, v));
      assert [Ldd(VarMode(v))] + [] == [Ldd(VarMode(v))];
      KeptRefl(cx, st);
    }
    TestZ(cx, GenE(RVar(v), n, k).code, st, cond, l, Eval(RVar(v), cx, m));
  }

  lemma CRVarTest(v: Var, cond: bool, l: nat, n: nat, k: bool, cx: Ctx, st: Cpu, m: Memory)
    requires Ready(cx, st, m, 0)
    ensures Decides(cx, GenB(CRVar(v), cond, l, n, k).code, st, cond, l, Eval(CRVar(v), cx, m))
  {
    hide Do; hide Exec; hide Agree; hide AddrOf;
    var r := Eval(CRVar(v), cx, m);
    assert r == Load(cx, m, AddrOf(cx, v), true);
    if r.Val? {
      VarOperand(cx, v, st, m);
      LoadDo(cx, true, VarMode(v), st, m, AddrOf(cx, v));
      DoLdb(VarMode(v), st);
      Exec1(Ldb(VarMode(v)), st);
      KeptRefl(cx, st);
    }
    TestZ(cx, [Ldb(VarMode(v))], st, cond, l, r);
    assert [Ldb(VarMode(v))] + [JCond(cond, l)] == [Ldb(VarMode(v)), JCond(cond, l)];
  }

  lemma RIndTest(a: Expr, cond: bool, l: nat, n: nat, k: bool, cx: Ctx, st: Cpu, m: Memory)
    requires Sound(a) && Ready(cx, st, m, Need(RInd(a, true)))
    ensures Decides(cx, GenRInd(a, true, n, k).code + [JCond(cond, l)], st, cond, l, EvalRInd(a, true, cx, m))
    decreases Size(a), 9
  {
    hide Do; hide Exec; hide Agree; hide GenRInd; hide EvalRInd; hide Sound; hide Need; hide Kept;
    CorrectRInd(a, true, n, k, cx, st, m);
    TestZ(cx, GenRInd(a, true, n, k).code, st, cond, l, EvalRInd(a, true, cx, m));
  }

  // ---------- jumping forward ----------

  lemma JumpOver(c: seq<Instr>, tail: seq<Instr>, l: nat, st: Cpu)
    requires Find(c, l) == |c|
    ensures JumpTo(c + tail, l, st) == JumpTo(tail, l, st)
  {
    hide Exec;
    FindAppend(c, tail, l);
    var k := Find(tail, l);
    assert (c + tail)[|c| + k..] == tail[k..];
  }

  lemma ExecLabel(l: nat, rest: seq<Instr>, st: Cpu)
    ensures Exec([Label(l)] + rest, st) == Exec(rest, st)
  {
    hide Do; hide Holds;
    assert ([Label(l)] + rest)[1..] == rest;
  }

  lemma JumpHit(l: nat, rest: seq<Instr>, st: Cpu)
    ensures JumpTo([Label(l)] + rest, l, st) == Exec(rest, st)
  {
    hide Exec;
    assert Find([Label(l)] + rest, l) == 0;
    assert ([Label(l)] + rest)[0..] == [Label(l)] + rest;
    ExecLabel(l, rest, st);
  }

  lemma ExecJmp(l: nat, rest: seq<Instr>, st: Cpu)
    ensures Exec([Jmp(l)] + rest, st) == JumpTo(rest, l, st)
  {
    hide Do; hide Holds; hide JumpTo;
    assert ([Jmp(l)] + rest)[1..] == rest;
  }

  lemma ExecLabelOnly(l: nat, st: Cpu)
    ensures Exec([Label(l)], st) == Fall(st) && JumpTo([Label(l)], l, st) == Fall(st)
  {
    assert [Label(l)] + [] == [Label(l)];
    ExecLabel(l, [], st);
    JumpHit(l, [], st);
    Exec0(st);
  }

  // ---------- && and || ----------

  /** The first operand decides at once: it jumps to the label after the second. */
  lemma LogicOwn(cx: Ctx, c1: seq<Instr>, c2: seq<Instr>, first: bool, cond: bool, own: nat, l: nat, st: Cpu, r1: Result, r2: Result)
    requires r1.Val? && Decides(cx, c1, st, first, own, r1)
    requires (r1.v != 0) != first ==> Decides(cx, c2, Exec(c1, st).st, cond, l, r2)
    requires Find(c2, own) == |c2| && l != own && cond == !first
    ensures Decides(cx, c1 + (c2 + [Label(own)]), st, cond, l,
                    if (r1.v != 0) == first then Val(if first then 1 else 0, r1.m) else r2)
  {
    hide Exec; hide Agree; hide Kept; hide JumpTo; hide Find;
    var tail := c2 + [Label(own)];
    ExecAppend(c1, tail, st);
    var st1 := Exec(c1, st).st;
    if (r1.v != 0) == first {
      JumpOver(c2, [Label(own)], own, st1);
      ExecLabelOnly(own, st1);
    } else if r2.Val? {
      ExecAppend(c2, [Label(own)], st1);
      ExecLabelOnly(own, Exec(c2, st1).st);
      JumpMiss(own, l, Exec(c2, st1).st);
      KeptTrans(cx, st, st1, Exec(c2, st1).st, r1.m, r2.m);
    }
  }

  lemma JumpMiss(own: nat, l: nat, st: Cpu)
    requires l != own
    ensures JumpTo([Label(own)], l, st) == Goto(l, st)
  {
    assert Find([Label(own)], l) == 1;
  }

  /** Both operands jump to the same outer label. */
  lemma LogicSame(cx: Ctx, c1: seq<Instr>, c2: seq<Instr>, cond: bool, l: nat, st: Cpu, r1: Result, r2: Result)
    requires r1.Val? && Decides(cx, c1, st, cond, l, r1)
    requires (r1.v != 0) != cond ==> Decides(cx, c2, Exec(c1, st).st, cond, l, r2)
    requires Find(c2, l) == |c2|
    ensures Decides(cx, c1 + c2, st, cond, l,
                    if (r1.v != 0) == cond then Val(if cond then 1 else 0, r1.m) else r2)
  {
    hide Exec; hide Agree; hide Kept; hide Find;
    ExecAppend(c1, c2, st);
    var st1 := Exec(c1, st).st;
    if (r1.v != 0) != cond && r2.Val? {
      KeptTrans(cx, st, st1, Exec(c2, st1).st, r1.m, r2.m);
    }
  }

  lemma DecidesSame(cx: Ctx, code: seq<Instr>, st: Cpu, cond: bool, l: nat, r: Result, r': Result)
    requires Decides(cx, code, st, cond, l, r)
    requires r'.Val? ==> r.Val? && r.m == r'.m && (r.v != 0) == (r'.v != 0)
    ensures Decides(cx, code, st, cond, l, r')
  {
    hide Exec; hide Agree; hide Kept;
  }

  lemma CorrectLogic(a: Expr, b: Expr, and: bool, cond: bool, l: nat, n: nat, k: bool, cx: Ctx, st: Cpu, m: Memory)
    requires SoundCond(a) && SoundCond(b) && l < n && Ready(cx, st, m, Max(Need(a), Need(b)))
    ensures var e := if and then LAnd(a, b) else LOr(a, b);
            Decides(cx, GenB(e, cond, l, n, k).code, st, cond, l, Eval(e, cx, m))
    decreases Size(a) + Size(b) + 1, 2
  {
    hide Exec; hide Agree; hide Kept; hide Eval; hide GenB; hide SoundCond; hide Need; hide Find;
    var e := if and then LAnd(a, b) else LOr(a, b);
    var r1 := Eval(a, cx, m);
    LogicValue(a, b, and, cx, m);
    LogicCode(a, b, and, cond, l, n, k);
    if Eval(e, cx, m).Val? {
      if and == cond {
        var g1 := GenB(a, !cond, n, n + 1, k);
        var g2 := GenB(b, cond, l, g1.next, g1.control);
        LabelsB(a, !cond, n, n + 1, k); LabelsB(b, cond, l, g1.next, g1.control);
        CorrectB(a, !cond, n, n + 1, k, cx, st, m);
        var st1 := Exec(g1.code, st).st;
        AfterReady(cx, st, m, Max(Need(a), Need(b)), st1, r1.m);
        CorrectB(b, cond, l, g1.next, g1.control, cx, st1, r1.m);
        NotFound(g2.code, g1.next, g2.next, n);
        var r2 := Eval(b, cx, r1.m);
        LogicOwn(cx, g1.code, g2.code, !cond, cond, n, l, st, r1, r2);
        DecidesSame(cx, GenB(e, cond, l, n, k).code, st, cond, l,
                    if (r1.v != 0) == !cond then Val(if !cond then 1 else 0, r1.m) else r2, Eval(e, cx, m));
      } else {
        var g1 := GenB(a, cond, l, n, k);
        var g2 := GenB(b, cond, l, g1.next, g1.control);
        LabelsB(a, cond, l, n, k); LabelsB(b, cond, l, g1.next, g1.control);
        CorrectB(a, cond, l, n, k, cx, st, m);
        var st1 := Exec(g1.code, st).st;
        AfterReady(cx, st, m, Max(Need(a), Need(b)), st1, r1.m);
        CorrectB(b, cond, l, g1.next, g1.control, cx, st1, r1.m);
        NotFound(g2.code, g1.next, g2.next, l);
        var r2 := Eval(b, cx, r1.m);
        LogicSame(cx, g1.code, g2.code, cond, l, st, r1, r2);
        DecidesSame(cx, GenB(e, cond, l, n, k).code, st, cond, l,
                    if (r1.v != 0) == cond then Val(if cond then 1 else 0, r1.m) else r2, Eval(e, cx, m));
      }
    }
  }

  /** Truth value and memory of && and ||, short-circuit included. */
  lemma LogicValue(a: Expr, b: Expr, and: bool, cx: Ctx, m: Memory)
    ensures var e := if and then LAnd(a, b) else LOr(a, b);
            var r1 := Eval(a, cx, m);
            Eval(e, cx, m).Val? ==>
              && r1.Val?
              && if (r1.v != 0) != and then Eval(e, cx, m) == Val(if and then 0 else 1, r1.m)
                 else var r2 := Eval(b, cx, r1.m);
                   r2.Val? && Eval(e, cx, m) == Val(Truth(r2.v != 0), r2.m)
  {}

  lemma LogicCode(a: Expr, b: Expr, and: bool, cond: bool, l: nat, n: nat, k: bool)
    ensures var e := if and then LAnd(a, b) else LOr(a, b);
            GenB(e, cond, l, n, k).code ==
            if and == cond then
              var g1 := GenB(a, !cond, n, n + 1, k);
              g1.code + (GenB(b, cond, l, g1.next, g1.control).code + [Label(n)])
            else
              var g1 := GenB(a, cond, l, n, k);
              g1.code + GenB(b, cond, l, g1.next, g1.control).code
  {}

  // ---------- conditions, values of conditions and ?: ----------

  lemma ConstTest(c: int, cond: bool, l: nat, n: nat, k: bool, cx: Ctx, st: Cpu, m: Memory)
    requires ConstCondOk(c) && Ready(cx, st, m, 0)
    ensures Decides(cx, GenB(Const(c), cond, l, n, k).code, st, cond, l, Eval(Const(c), cx, m))
  {
    hide Exec; hide Agree; hide Eval;
    KeptRefl(cx, st);
    ConstValue(c, cx, m);
    assert [Jmp(l)] == [Jmp(l)] + [];
    ExecJmp(l, [], st);
    Exec0(st);
  }

  /** The code of a condition jumps to l exactly when its truth is `cond`. */
  lemma CorrectB(e: Expr, cond: bool, l: nat, n: nat, k: bool, cx: Ctx, st: Cpu, m: Memory)
    requires SoundCond(e) && l < n && Ready(cx, st, m, Need(e))
    ensures Decides(cx, GenB(e, cond, l, n, k).code, st, cond, l, Eval(e, cx, m))
    decreases Size(e), 4
  {
    hide Exec; hide Agree; hide Kept; hide Decides; hide Eval; hide GenE; hide GenBin; hide CmpBranch; hide NeedBin;
    if e.RVar? {
      RVarTest(e.v, cond, l, n, k, cx, st, m);
    } else if e.RInd? && e.byte {
      RIndValue(e.e, true, cx, m);
      RIndCode(e.e, true, n, k);
      RIndTest(e.e, cond, l, n, k, cx, st, m);
    } else if !IsBool(e) && !e.CRVar? && !e.Const? {
      CorrectE(e, n, k, cx, st, m);
      TestD(cx, GenE(e, n, k).code, st, cond, l, Eval(e, cx, m));
    } else {
      match e
      case LNot(a) =>
        CorrectB(a, !cond, l, n, k, cx, st, m);
        NotDecides(cx, GenB(a, !cond, l, n, k).code, a, cond, l, st, m);
      case Cmp(op, a, b) => CmpCorrect(op, a, b, cond, l, n, k, cx, st, m);
      case LAnd(a, b) => CorrectLogic(a, b, true, cond, l, n, k, cx, st, m);
      case LOr(a, b) => CorrectLogic(a, b, false, cond, l, n, k, cx, st, m);
      case CRVar(v) => CRVarTest(v, cond, l, n, k, cx, st, m);
      case Const(c) => ConstTest(c, cond, l, n, k, cx, st, m);
    }
  }

  lemma RIndValue(a: Expr, byte: bool, cx: Ctx, m: Memory)
    ensures Eval(RInd(a, byte), cx, m) == EvalRInd(a, byte, cx, m)
  {}

  lemma RIndCode(a: Expr, byte: bool, n: nat, k: bool)
    ensures GenE(RInd(a, byte), n, k) == GenRInd(a, byte, n, k)
  {}

  lemma NotDecides(cx: Ctx, code: seq<Instr>, a: Expr, cond: bool, l: nat, st: Cpu, m: Memory)
    requires Decides(cx, code, st, !cond, l, Eval(a, cx, m))
    ensures Decides(cx, code, st, cond, l, Eval(LNot(a), cx, m))
  {
    hide Exec; hide Agree; hide Kept;
  }

  lemma BoolValue(e: Expr, cx: Ctx, m: Memory)
    requires IsBool(e) && Eval(e, cx, m).Val?
    ensures Eval(e, cx, m).v == 0 || Eval(e, cx, m).v == 1
  {
    hide Compares;
  }

  function ValueTail(n: nat): seq<Instr> { [Clra, Clrb, SkipBytes(3), Label(n), Ldd(Imm(1))] }

  /** The tail that turns a decided condition into 0 or 1. */
  lemma ValueFalse(n: nat, st: Cpu)
    ensures var o := Exec(ValueTail(n), st); o.Fall? && o.st.d == 0 && OnlyD(st, o.st)
  {
    hide Do; hide Exec;
    var t3 := [SkipBytes(3), Label(n), Ldd(Imm(1))];
    assert ValueTail(n) == [Clra, Clrb] + t3;
    ClearD(st);
    Compose([Clra, Clrb], t3, st);
    SkipValue(n, Exec([Clra, Clrb], st).st);
  }

  lemma ValueTrue(n: nat, st: Cpu)
    ensures var o := JumpTo(ValueTail(n), n, st); o.Fall? && o.st.d == 1 && OnlyD(st, o.st)
  {
    hide Do; hide Exec; hide Find; hide JumpTo;
    var t4 := [Label(n), Ldd(Imm(1))];
    assert ValueTail(n) == [Clra, Clrb, SkipBytes(3)] + t4;
    assert t4 == [Label(n)] + [Ldd(Imm(1))];
    NoLabel3(n);
    JumpOver([Clra, Clrb, SkipBytes(3)], t4, n, st);
    JumpHit(n, [Ldd(Imm(1))], st);
    Exec1(Ldd(Imm(1)), st);
    DoLdd(Imm(1), st);
  }

  lemma NoLabel3(n: nat)
    ensures Find([Clra, Clrb, SkipBytes(3)], n) == 3
  {
    assert [Clra, Clrb, SkipBytes(3)][1..] == [Clrb, SkipBytes(3)];
    assert [Clrb, SkipBytes(3)][1..] == [SkipBytes(3)];
    assert [SkipBytes(3)][1..] == [];
  }

  lemma SkipValue(n: nat, st: Cpu)
    ensures Exec([SkipBytes(3), Label(n), Ldd(Imm(1))], st) == Fall(st)
  {
    hide Do; hide Holds;
    var rest := [Label(n), Ldd(Imm(1))];
    assert [SkipBytes(3), Label(n), Ldd(Imm(1))][1..] == rest;
    assert rest[1..] == [Ldd(Imm(1))];
    assert [Ldd(Imm(1))][1..] == [];
    assert SkipOver([Ldd(Imm(1))], 3) == 1;
    assert SkipOver(rest, 3) == 2;
    assert rest[2..] == [];
  }

  lemma CorrectBool(e: Expr, n: nat, k: bool, cx: Ctx, st: Cpu, m: Memory)
    requires IsBool(e) && Sound(e) && Ready(cx, st, m, Need(e))
    ensures Computes(cx, GenE(e, n, k).code, st, Eval(e, cx, m))
    decreases Size(e), 5
  {
    hide Exec; hide Agree; hide Kept; hide Eval; hide GenB; hide Sound; hide Need;
    hide GenBin; hide GenRInd; hide GenInc; hide GenL; hide GenAssign; hide GenAssOp; hide VarMode;
    if Eval(e, cx, m).Val? {
      var g := GenB(e, true, n, n + 1, k);
      var tail := ValueTail(n);
      CorrectB(e, true, n, n + 1, k, cx, st, m);
      BoolValue(e, cx, m);
      ExecAppend(g.code, tail, st);
      var st1 := Exec(g.code, st).st;
      ValueFalse(n, st1);
      ValueTrue(n, st1);
      AfterOnlyD(cx, st, st1, Exec(g.code + tail, st).st, Eval(e, cx, m).m);
    }
  }

  lemma CorrectCond(c: Expr, t: Expr, f: Expr, n: nat, k: bool, cx: Ctx, st: Cpu, m: Memory)
    requires SoundCond(c) && Sound(t) && Sound(f) && Ready(cx, st, m, Max(Need(c), Max(Need(t), Need(f))))
    ensures Computes(cx, GenE(CondE(c, t, f), n, k).code, st, Eval(CondE(c, t, f), cx, m))
    decreases Size(c) + Size(t) + Size(f) + 1, 0
  {
    hide Exec; hide Agree; hide Kept; hide GenB; hide GenE; hide Eval; hide Sound; hide SoundCond; hide Need; hide JumpTo; hide Find;
    hide After; hide Max; hide CondCode;
    CondValue(c, t, f, cx, m);
    CondShape(c, t, f, n, k);
    if Eval(CondE(c, t, f), cx, m).Val? {
      var r1 := Eval(c, cx, m);
      var g1 := GenB(c, false, n, n + 1, k);
      var g2 := GenE(t, g1.next, g1.control);
      var g3 := GenE(f, g2.next + 1, true);
      var need := Max(Need(c), Max(Need(t), Need(f)));
      CondReady(cx, st, m, Need(c), Need(t), Need(f));
      CondLabels(c, t, f, n, k);
      CorrectB(c, false, n, n + 1, k, cx, st, m);
      var st1 := Exec(g1.code, st).st;
      AfterReady(cx, st, m, need, st1, r1.m);
      CondReady(cx, st1, r1.m, Need(c), Need(t), Need(f));
      if r1.v != 0 {
        CorrectE(t, g1.next, g1.control, cx, st1, r1.m);
        ThenBranch(cx, g1.code, g2.code, g3.code, n, g2.next, st, r1, Eval(t, cx, r1.m));
      } else {
        CorrectE(f, g2.next + 1, true, cx, st1, r1.m);
        ElseBranch(cx, g1.code, g2.code, g3.code, n, g2.next, st, r1, Eval(f, cx, r1.m));
      }
    }
  }

  lemma CondValue(c: Expr, t: Expr, f: Expr, cx: Ctx, m: Memory)
    ensures var r1 := Eval(c, cx, m);
            Eval(CondE(c, t, f), cx, m) ==
            if r1.Fault? then Fault else if r1.v != 0 then Eval(t, cx, r1.m) else Eval(f, cx, r1.m)
  {}

  lemma CondShape(c: Expr, t: Expr, f: Expr, n: nat, k: bool)
    ensures var g1 := GenB(c, false, n, n + 1, k);
            var g2 := GenE(t, g1.next, g1.control);
            var g3 := GenE(f, g2.next + 1, true);
            GenE(CondE(c, t, f), n, k).code == CondCode(g1.code, g2.code, g3.code, n, g2.next)
  {
    hide GenB; hide GenE;
    CondIs(c, t, f, n, k);
  }

  lemma CondIs(c: Expr, t: Expr, f: Expr, n: nat, k: bool)
    ensures GenE(CondE(c, t, f), n, k) == GenCond(c, t, f, n, k)
  {
    hide GenCond;
  }

  lemma CondLabels(c: Expr, t: Expr, f: Expr, n: nat, k: bool)
    ensures var g1 := GenB(c, false, n, n + 1, k);
            var g2 := GenE(t, g1.next, g1.control);
            var g3 := GenE(f, g2.next + 1, true);
            g2.next != n && Find(g3.code, g2.next) == |g3.code| && Find(g2.code, n) == |g2.code|
  {
    hide GenB; hide GenE; hide Find; hide DefinesOnce; hide JumpsWithin;
    LabelsB(c, false, n, n + 1, k);
    var g1 := GenB(c, false, n, n + 1, k);
    LabelsE(t, g1.next, g1.control);
    var g2 := GenE(t, g1.next, g1.control);
    LabelsE(f, g2.next + 1, true);
    var g3 := GenE(f, g2.next + 1, true);
    NotFound(g3.code, g2.next + 1, g3.next, g2.next);
    NotFound(g2.code, g1.next, g2.next, n);
  }

  lemma CondReady(cx: Ctx, st: Cpu, m: Memory, a: nat, b: nat, c: nat)
    requires Ready(cx, st, m, Max(a, Max(b, c)))
    ensures Ready(cx, st, m, a) && Ready(cx, st, m, b) && Ready(cx, st, m, c)
  {}

  function CondCode(c1: seq<Instr>, c2: seq<Instr>, c3: seq<Instr>, n: nat, l: nat): seq<Instr> {
    c1 + (c2 + ([Jmp(l), Label(n)] + (c3 + [Label(l)])))
  }

  lemma ThenBranch(cx: Ctx, c1: seq<Instr>, c2: seq<Instr>, c3: seq<Instr>, n: nat, l: nat, st: Cpu, r1: Result, r: Result)
    requires r1.Val? && r1.v != 0 && Decides(cx, c1, st, false, n, r1)
    requires r.Val? && Computes(cx, c2, Exec(c1, st).st, r) && Find(c3, l) == |c3| && l != n
    ensures Computes(cx, CondCode(c1, c2, c3, n, l), st, r)
  {
    hide Exec; hide Find; hide JumpTo; hide Agree; hide Kept;
    var rest := [Jmp(l), Label(n)] + (c3 + [Label(l)]);
    Compose(c1, c2 + rest, st);
    var st1 := Exec(c1, st).st;
    Compose(c2, rest, st1);
    var st2 := Exec(c2, st1).st;
    assert rest == [Jmp(l)] + ([Label(n)] + (c3 + [Label(l)]));
    ExecJmp(l, [Label(n)] + (c3 + [Label(l)]), st2);
    assert Find([Label(n)], l) == 1 by { NoLabel1(n, l); }
    JumpOver([Label(n)], c3 + [Label(l)], l, st2);
    JumpOver(c3, [Label(l)], l, st2);
    ExecLabelOnly(l, st2);
    KeptTrans(cx, st, st1, st2, r1.m, r.m);
  }

  lemma NoLabel1(n: nat, l: nat)
    requires l != n
    ensures Find([Label(n)], l) == 1
  {}

  lemma ElseBranch(cx: Ctx, c1: seq<Instr>, c2: seq<Instr>, c3: seq<Instr>, n: nat, l: nat, st: Cpu, r1: Result, r: Result)
    requires r1.Val? && r1.v == 0 && Decides(cx, c1, st, false, n, r1)
    requires r.Val? && Computes(cx, c3, Exec(c1, st).st, r) && Find(c2, n) == |c2|
    ensures Computes(cx, CondCode(c1, c2, c3, n, l), st, r)
  {
    hide Exec; hide Find; hide JumpTo; hide Agree; hide Kept;
    var rest := [Jmp(l), Label(n)] + (c3 + [Label(l)]);
    ExecAppend(c1, c2 + rest, st);
    var st1 := Exec(c1, st).st;
    JumpOver(c2, rest, n, st1);
    assert rest == [Jmp(l)] + ([Label(n)] + (c3 + [Label(l)]));
    assert Find([Jmp(l)], n) == 1 by { NoJmp1(n, l); }
    JumpOver([Jmp(l)], [Label(n)] + (c3 + [Label(l)]), n, st1);
    JumpHit(n, c3 + [Label(l)], st1);
    Compose(c3, [Label(l)], st1);
    ExecLabelOnly(l, Exec(c3, st1).st);
    KeptTrans(cx, st, st1, Exec(c3, st1).st, r1.m, r.m);
  }

  lemma NoJmp1(n: nat, l: nat)
    ensures Find([Jmp(l)], n) == 1
  {}

  // ---------- all expressions ----------

  lemma CorrectComma(l: Expr, r: Expr, n: nat, k: bool, cx: Ctx, st: Cpu, m: Memory)
    requires Sound(l) && Sound(r) && Ready(cx, st, m, Max(Need(l), Need(r)))
    ensures Computes(cx, GenE(Comma(l, r), n, k).code, st, Eval(Comma(l, r), cx, m))
    decreases Size(l) + Size(r) + 1, 0
  {
    hide Exec; hide Agree; hide Kept; hide Sound; hide Need;
    if Eval(Comma(l, r), cx, m).Val? {
      var r1 := Eval(l, cx, m);
      var g1 := GenE(l, n, k);
      CorrectE(l, n, k, cx, st, m);
      var st1 := Exec(g1.code, st).st;
      AfterReady(cx, st, m, Max(Need(l), Need(r)), st1, r1.m);
      CorrectE(r, g1.next, g1.control, cx, st1, r1.m);
      ThenAfter(cx, g1.code, GenE(r, g1.next, g1.control).code, st, r1, Eval(r, cx, r1.m).m);
    }
  }

  lemma CorrectCommaL(lv: LVal, r: Expr, n: nat, k: bool, cx: Ctx, st: Cpu, m: Memory)
    requires SoundL(lv) && Sound(r) && Ready(cx, st, m, Max(NeedL(lv), Need(r)))
    ensures Computes(cx, GenE(CommaL(lv, r), n, k).code, st, Eval(CommaL(lv, r), cx, m))
    decreases LSize(lv) + Size(r) + 1, 0
  {
    hide Exec; hide Agree; hide Kept; hide Sound; hide SoundL; hide Need; hide NeedL; hide GenL; hide EvalL;
    if Eval(CommaL(lv, r), cx, m).Val? {
      var r1 := EvalL(lv, cx, m);
      var g1 := GenL(lv, n, k);
      CorrectL(lv, n, k, cx, st, m);
      var st1 := Exec(g1.code, st).st;
      AfterReady(cx, st, m, Max(NeedL(lv), Need(r)), st1, r1.m);
      CorrectE(r, g1.next, g1.control, cx, st1, r1.m);
      ThenAfter(cx, g1.code, GenE(r, g1.next, g1.control).code, st, r1, Eval(r, cx, r1.m).m);
    }
  }

  lemma CorrectMinus(a: Expr, n: nat, k: bool, cx: Ctx, st: Cpu, m: Memory)
    requires Sound(a) && Ready(cx, st, m, Need(a))
    ensures Computes(cx, GenE(Minus(a), n, k).code, st, Eval(Minus(a), cx, m))
    decreases Size(a), 7
  {
    hide Exec; hide Agree; hide Kept; hide Sound; hide Need;
    if Eval(a, cx, m).Val? {
      CorrectE(a, n, k, cx, st, m);
      NegCorrect(Exec(GenE(a, n, k).code, st).st);
      ThenOnlyD(cx, GenE(a, n, k).code, [Nega, Negb, Sbca(0)], st, Eval(a, cx, m));
    }
  }

  lemma CorrectBNot(a: Expr, n: nat, k: bool, cx: Ctx, st: Cpu, m: Memory)
    requires Sound(a) && Ready(cx, st, m, Need(a))
    ensures Computes(cx, GenE(BNot(a), n, k).code, st, Eval(BNot(a), cx, m))
    decreases Size(a), 7
  {
    hide Exec; hide Agree; hide Kept; hide Sound; hide Need;
    if Eval(a, cx, m).Val? {
      CorrectE(a, n, k, cx, st, m);
      ComCorrect(Exec(GenE(a, n, k).code, st).st);
      ThenOnlyD(cx, GenE(a, n, k).code, [Coma, Comb], st, Eval(a, cx, m));
    }
  }

  lemma CorrectAddress(v: Var, n: nat, k: bool, cx: Ctx, st: Cpu, m: Memory)
    requires Ready(cx, st, m, 0)
    ensures Computes(cx, GenE(Address(v), n, k).code, st, Eval(Address(v), cx, m))
  {
    hide Do; hide Exec; hide Agree; hide AddrOf;
    Exec2(Leax(VarMode(v)), TfrXD, st);
    LeaxVar(cx, v, st, m);
    MoveX(Do(Leax(VarMode(v)), st));
    KeptRefl(cx, st);
  }

  lemma IncValue(lv: LVal, i: int, cx: Ctx, m: Memory)
    ensures Eval(PreInc(lv, i), cx, m) == IncResult(lv, i, cx, m)
  {
    hide Load; hide Store; hide EvalL;
  }

  /** Main theorem: the code of a tree leaves its value in D, S, U and Y as they were, and
      memory outside scratch exactly as evaluation says. */
  lemma CorrectE(e: Expr, n: nat, k: bool, cx: Ctx, st: Cpu, m: Memory)
    requires Sound(e) && Ready(cx, st, m, Need(e))
    ensures Computes(cx, GenE(e, n, k).code, st, Eval(e, cx, m))
    decreases Size(e), if IsBool(e) then 6 else 2
  {
    hide Exec; hide Agree; hide Kept; hide Computes;
    hide EvalBin; hide EvalRInd; hide EvalAssign; hide EvalAssOp; hide EvalL;
    hide GenBin; hide GenRInd; hide GenAssign; hide GenAssOp; hide GenL; hide GenInc; hide GenB;
    hide NeedBin; hide NeedL; hide SoundL; hide SoundCond;
    if IsBool(e) {
      CorrectBool(e, n, k, cx, st, m);
    } else if SimpleRhs(e) {
      CorrectLeaf(e, n, k, cx, st, m);
    } else {
      match e
      case Address(v) => CorrectAddress(v, n, k, cx, st, m);
      case RInd(a, byte) => CorrectRInd(a, byte, n, k, cx, st, m);
      case Minus(a) => CorrectMinus(a, n, k, cx, st, m);
      case BNot(a) => CorrectBNot(a, n, k, cx, st, m);
      case PreInc(lv, i) => IncValue(lv, i, cx, m); CorrectInc(lv, i, n, k, cx, st, m);
      case PostInc(lv, i) => PostIncCorrect(lv, i, n, k, cx, st, m);
      case CStep(lv, up, post) => CStepCorrect(lv, up, post, n, k, cx, st, m);
      case Bin(op, l, r) => CorrectBin(op, l, r, n, k, cx, st, m);
      case CondE(c, t, f) => CorrectCond(c, t, f, n, k, cx, st, m);
      case Assign(lv, a, byte) => CorrectAssign(lv, a, byte, n, k, cx, st, m);
      case AssOp(lv, a, op, byte) => CorrectAssOp(lv, a, op, byte, n, k, cx, st, m);
      case Comma(l, r) => CorrectComma(l, r, n, k, cx, st, m);
      case CommaL(lv, r) => CorrectCommaL(lv, r, n, k, cx, st, m);
    }
  }

  lemma CorrectLeaf(e: Expr, n: nat, k: bool, cx: Ctx, st: Cpu, m: Memory)
    requires SimpleRhs(e) && Ready(cx, st, m, 0)
    ensures Computes(cx, GenE(e, n, k).code, st, Eval(e, cx, m))
  {
    hide Exec; hide Agree; hide Kept; hide GenE; hide Eval;
    if Eval(e, cx, m).Val? { SimpleKeepsX(e, n, k, cx, st, m); }
  }

  lemma CorrectAssOp(lv: LVal, e: Expr, op: BinOp, byte: bool, n: nat, k: bool, cx: Ctx, st: Cpu, m: Memory)
    requires SoundL(lv) && Sound(e) && Ready(cx, st, m, Max(Max(Need(e), 2 + NeedL(lv)), NeedOp(op)))
    requires lv.Plain? || Simple(op)
    ensures Computes(cx, GenAssOp(lv, e, op, byte, n, k).code, st, EvalAssOp(lv, e, op, byte, cx, m))
    decreases LSize(lv) + Size(e), 4
  {
    hide Exec; hide Agree; hide Kept; hide GenAssOp; hide EvalAssOp; hide Sound; hide SoundL; hide Need; hide NeedL;
    if EvalAssOp(lv, e, op, byte, cx, m).Val? {
      if Simple(op) && Late(e) {
        AssOpLate(lv, e, op, byte, n, k, cx, st, m);
      } else {
        AssOpStacked(lv, e, op, byte, n, k, cx, st, m);
      }
    }
  }
}
