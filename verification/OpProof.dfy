/** What the short instruction sequences inside an expression do to D, X and memory. */
module OpProof {
  import opened Machine
  import opened Bits
  import opened Runtime
  import opened Engine
  import opened Source
  import opened CodeGen
  import opened ExprProof

  // ---------- single instructions ----------

  lemma DoLdd(m: Mode, st: Cpu)
    ensures var (w, st') := Operand16(m, st); Do(Ldd(m), st) == LoadD(st', w)
  {}

  lemma DoLdb(m: Mode, st: Cpu)
    ensures var (b, st') := Operand8(m, st); Do(Ldb(m), st) == LoadB(st', b)
  {}

  lemma DoLdx(m: Mode, st: Cpu)
    ensures var (w, st') := Operand16(m, st); Do(Ldx(m), st) == LoadX(st', w)
  {}

  lemma DoStd(m: Mode, st: Cpu)
    ensures var (a, st') := Place(m, st); Do(Std(m), st) == StoreWord(st', a, st.d)
  {}

  lemma DoStb(m: Mode, st: Cpu)
    ensures var (a, st') := Place(m, st); Do(Stb(m), st) == StoreByte(st', a, st.B())
  {}

  lemma DoStx(m: Mode, st: Cpu)
    ensures var (a, st') := Place(m, st); Do(Stx(m), st) == StoreWord(st', a, st'.x)
  {}

  lemma DoLeax(m: Mode, st: Cpu)
    ensures var (a, st') := Place(m, st); Do(Leax(m), st) == st'.(x := a, cc := st.cc.(z := a == 0))
  {}

  lemma DoAddd(m: Mode, st: Cpu)
    ensures var (w, st') := Operand16(m, st); Do(Addd(m), st) == AddTo(st', w)
  {}

  lemma DoSubd(m: Mode, st: Cpu)
    ensures var (w, st') := Operand16(m, st); Do(Subd(m), st) == SubFrom(st', w)
  {}

  lemma DoStack(st: Cpu)
    ensures Do(PshsD, st) == Push(st, st.d)
    ensures Do(PulsD, st) == Pop(st).(d := Top(st))
    ensures Do(PulsX, st) == Pop(st).(x := Top(st))
  {}

  lemma DoMove(st: Cpu)
    ensures Do(TfrDX, st) == st.(x := st.d)
    ensures Do(TfrXD, st) == st.(d := st.x)
    ensures Do(Sex, st) == st.(d := Sext(st.B()), cc := NZ16(st.cc, Sext(st.B())))
  {}

  lemma DoLbsr(op: LibOp, st: Cpu)
    ensures Do(Lbsr(op), st) == Library(op, st)
  {
    hide Library;
  }

  lemma VarOperand(cx: Ctx, v: Var, st: Cpu, m: Memory)
    requires Ready(cx, st, m, 0)
    ensures Place(VarMode(v), st) == (AddrOf(cx, v), st)
    ensures FreeFor(cx, AddrOf(cx, v), true) ==> Operand8(VarMode(v), st) == (m[AddrOf(cx, v)], st)
    ensures FreeFor(cx, AddrOf(cx, v), false) ==>
              && Operand16(VarMode(v), st) == (ReadWord(m, AddrOf(cx, v)), st)
              && Operand8(VarMode1(v), st) == (m[Wrap(AddrOf(cx, v) + 1)], st)
  {
    hide ReadWord; hide Join;
    NextByte(cx, v, st);
    if FreeFor(cx, AddrOf(cx, v), false) { AgreeRead(cx, st.mem, m, AddrOf(cx, v)); }
  }

  lemma NextByte(cx: Ctx, v: Var, st: Cpu)
    requires st.y == cx.y && st.u == cx.u
    ensures Ea(VarMode1(v), st) == (Wrap(AddrOf(cx, v) + 1), st)
  {
    hide Wrap; hide ReadWord;
    WrapNext(if v.GVar? then cx.y + v.n else cx.u + v.n);
  }

  lemma WrapNext(x: int)
    ensures Wrap(Wrap(x) + 1) == Wrap(x + 1)
  {}

  lemma DoBitA(op: BitOp, m: Mode, st: Cpu)
    ensures var (b, st') := Operand8(m, st);
            var r := Do(BitA(op, m), st);
            r == st'.(d := Join(Bitwise8(op, st.A(), b), st'.B()), cc := r.cc)
  {
    hide Bitwise8; hide Operand8;
  }

  lemma DoBitB(op: BitOp, m: Mode, st: Cpu)
    ensures var (b, st') := Operand8(m, st);
            var r := Do(BitB(op, m), st);
            r == st'.(d := Join(st'.A(), Bitwise8(op, st.B(), b)), cc := r.cc)
  {
    hide Bitwise8; hide Operand8;
  }

  /** D after the two byte-wise instructions that stand for a word operation. */
  lemma DualOp(op: BitOp, m1: Mode, m2: Mode, st: Cpu, w: Word)
    requires Operand8(m1, st) == (w / 0x100, st)
    requires var st1 := Do(BitA(op, m1), st); Operand8(m2, st1) == (w % 0x100, st1)
    ensures var o := Exec([BitA(op, m1), BitB(op, m2)], st);
            o.Fall? && o.st.d == Bitwise16(op, st.d, w) && OnlyD(st, o.st)
  {
    hide Do; hide Exec; hide Bitwise8; hide Bitwise16; hide Operand8; hide Join;
    Exec2(BitA(op, m1), BitB(op, m2), st);
    DoBitA(op, m1, st);
    var st1 := Do(BitA(op, m1), st);
    DoBitB(op, m2, st1);
    JoinParts(Bitwise8(op, st.A(), w / 0x100), st.B());
    BitwiseHalves(op, st.d, w);
  }

  lemma OprtVar(cx: Ctx, op: BinOp, v: Var, st: Cpu, m: Memory)
    requires Simple(op) && Ready(cx, st, m, 0) && FreeFor(cx, AddrOf(cx, v), false)
    ensures var o := Exec(Oprt(op, RVar(v)), st);
            o.Fall? && o.st.d == Apply(op, st.d, ReadWord(m, AddrOf(cx, v))) && OnlyD(st, o.st)
            && (op.Sub? ==> o.st.cc == SubStatus(st.d, ReadWord(m, AddrOf(cx, v))))
  {
    hide Do; hide Bitwise8; hide Bitwise16; hide Exec; hide Agree; hide Operand16; hide Operand8; hide AddrOf; hide ReadWord;
    var w := ReadWord(m, AddrOf(cx, v));
    VarOperand(cx, v, st, m);
    if op.Add? {
      Exec1(Addd(VarMode(v)), st);
      DoAddd(VarMode(v), st);
    } else if op.Sub? {
      Exec1(Subd(VarMode(v)), st);
      DoSubd(VarMode(v), st);
    } else {
      DoBitA(BitsOf(op), VarMode(v), st);
      var st1 := Do(BitA(BitsOf(op), VarMode(v)), st);
      assert Operand8(VarMode(v), st) == (w / 0x100, st) by { ReadParts(m, AddrOf(cx, v)); }
      VarOperand(cx, v, st1, m);
      assert Operand8(VarMode1(v), st1) == (w % 0x100, st1) by { ReadParts(m, AddrOf(cx, v)); }
      DualOp(BitsOf(op), VarMode(v), VarMode1(v), st, w);
    }
  }

  lemma ReadParts(m: Memory, a: Word)
    ensures ReadWord(m, a) / 0x100 == m[a] && ReadWord(m, a) % 0x100 == m[Wrap(a + 1)]
  {
    JoinParts(m[a], m[Wrap(a + 1)]);
  }

  lemma OprtConst(op: BinOp, c: int, st: Cpu)
    requires Simple(op)
    ensures var o := Exec(Oprt(op, Const(c)), st);
            o.Fall? && o.st.d == Apply(op, st.d, Wrap(c)) && OnlyD(st, o.st)
            && (op.Sub? ==> o.st.cc == SubStatus(st.d, Wrap(c)))
  {
    hide Do; hide Bitwise8; hide Bitwise16; hide Exec;
    if op.Add? {
      Exec1(Addd(Imm(c)), st);
      DoAddd(Imm(c), st);
    } else if op.Sub? {
      Exec1(Subd(Imm(c)), st);
      DoSubd(Imm(c), st);
    } else {
      SplitMod(c);
      DualOp(BitsOf(op), Imm(c / 0x100 % 0x100), Imm(c % 0x100), st, Wrap(c));
    }
  }

  /** An operand that needs no stack is combined with D; nothing but D and flags changes. */
  lemma OprtCorrect(cx: Ctx, op: BinOp, e: Expr, st: Cpu, m: Memory)
    requires Simple(op) && Late(e) && Ready(cx, st, m, 0) && Eval(e, cx, m).Val?
    ensures var o := Exec(Oprt(op, e), st);
            o.Fall? && o.st.d == Apply(op, st.d, Eval(e, cx, m).v) && OnlyD(st, o.st)
            && (op.Sub? ==> o.st.cc == SubStatus(st.d, Eval(e, cx, m).v))
    ensures Eval(e, cx, m).m == m
  {
    hide Exec; hide Apply; hide Oprt;
    if e.RVar? { OprtVar(cx, op, e.v, st, m); } else { OprtConst(op, e.c, st); }
  }

  lemma SplitMod(c: int)
    ensures Wrap(c) / 0x100 == c / 0x100 % 0x100 && Wrap(c) % 0x100 == c % 0x100
  {
    var q, r := c / 0x1_0000, c % 0x1_0000;
    assert c == 0x1_0000 * q + r;
    assert c / 0x100 == 0x100 * q + r / 0x100;
  }

  lemma TosSimple(op: BinOp, st: Cpu)
    requires Simple(op) && st.s <= 0xfffd
    ensures var o := Exec(TosOp(op), st);
            o.Fall? && o.st.d == Apply(op, st.d, Top(st)) && OnlyD(Pop(st), o.st)
            && (op.Sub? ==> o.st.cc == SubStatus(st.d, Top(st)))
  {
    hide Do; hide Bitwise16; hide Exec; hide ReadWord;
    if op.Add? {
      Exec1(Addd(SInc(2)), st);
      DoAddd(SInc(2), st);
    } else if op.Sub? {
      Exec1(Subd(SInc(2)), st);
      DoSubd(SInc(2), st);
    } else {
      TosDual(BitsOf(op), st);
    }
  }

  /** The word on top of the stack is the second operand, and it is popped. */
  lemma TosCorrect(cx: Ctx, op: BinOp, st: Cpu, m: Memory)
    requires Ready(cx, Pop(st), m, NeedOp(op)) && st.s <= 0xfffd
    ensures var o := Exec(TosOp(op), st);
            && o.Fall? && o.st.d == Apply(op, st.d, Top(st))
            && After(cx, Pop(st), o.st, m)
            && (Simple(op) ==> o.st.x == st.x)
            && (op.Sub? ==> o.st.cc == SubStatus(st.d, Top(st)))
  {
    hide Exec; hide ReadWord; hide Agree; hide Apply; hide TosOp;
    if Simple(op) { TosSimple(op, st); } else { TosLib(cx, op, st, m); }
  }

  lemma TosLib(cx: Ctx, op: BinOp, st: Cpu, m: Memory)
    requires !Simple(op) && Ready(cx, Pop(st), m, NeedOp(op)) && st.s <= 0xfffd
    ensures var o := Exec(TosOp(op), st);
            && o.Fall? && o.st.d == Apply(op, st.d, Top(st)) && After(cx, Pop(st), o.st, m)
            && o.st.x == LeftInX(LibOf(op), st.d, Top(st))
  {
    hide Do; hide Exec; hide Library; hide LeftInX; hide LibValue; hide ReadWord; hide LibOf;
    Exec2(PulsX, Lbsr(LibOf(op)), st);
    DoStack(st);
    DoLbsr(LibOf(op), Do(PulsX, st));
    LibraryCorrect(LibOf(op), Do(PulsX, st));
  }

  lemma TopByte(st: Cpu)
    requires st.s <= 0xfffe
    ensures Operand8(SInc(1), st) == (st.mem[st.s], st.(s := st.s + 1))
  {}

  lemma TopParts(st: Cpu)
    requires st.s <= 0xfffd
    ensures Top(st) / 0x100 == st.mem[st.s] && Top(st) % 0x100 == st.mem[st.s + 1] && Pop(st) == st.(s := st.s + 2)
  {
    JoinParts(st.mem[st.s], st.mem[st.s + 1]);
  }

  lemma TosDual(op: BitOp, st: Cpu)
    requires st.s <= 0xfffd
    ensures var o := Exec([BitA(op, SInc(1)), BitB(op, SInc(1))], st);
            o.Fall? && o.st.d == Bitwise16(op, st.d, Top(st)) && OnlyD(Pop(st), o.st)
  {
    hide Do; hide Exec; hide Bitwise8; hide Bitwise16; hide Join; hide Operand8; hide Top; hide Pop;
    Exec2(BitA(op, SInc(1)), BitB(op, SInc(1)), st);
    DoBitA(op, SInc(1), st);
    var st1 := Do(BitA(op, SInc(1)), st);
    TopByte(st);
    TopByte(st1);
    TopParts(st);
    DoBitB(op, SInc(1), st1);
    JoinParts(Bitwise8(op, st.A(), st.mem[st.s]), st.B());
    BitwiseHalves(op, st.d, Top(st));
  }
}
