/** Loads, stores and addresses inside an expression. */
module AccessProof {
  import opened Machine
  import opened Runtime
  import opened Engine
  import opened Source
  import opened CodeGen
  import opened ExprProof
  import opened OpProof

  lemma AfterOnlyD(cx: Ctx, st: Cpu, st1: Cpu, st2: Cpu, m: Memory)
    requires After(cx, st, st1, m) && OnlyD(st1, st2)
    ensures After(cx, st, st2, m)
  {}

  lemma AfterRefl(cx: Ctx, st: Cpu, m: Memory)
    requires Ready(cx, st, m, 0)
    ensures After(cx, st, st, m)
  {}

  lemma AfterReady(cx: Ctx, st: Cpu, m: Memory, need: int, st1: Cpu, m1: Memory)
    requires Ready(cx, st, m, need) && After(cx, st, st1, m1)
    ensures Ready(cx, st1, m1, need)
  {}

  /** Only X may differ from st besides D and flags. */
  ghost predicate OnlyDX(st: Cpu, st': Cpu) {
    st'.y == st.y && st'.u == st.u && st'.s == st.s && st'.mem == st.mem
  }

  lemma AfterOnlyDX(cx: Ctx, st: Cpu, st1: Cpu, st2: Cpu, m: Memory)
    requires After(cx, st, st1, m) && OnlyDX(st1, st2)
    ensures After(cx, st, st2, m)
  {}

  /** Z says whether D is zero. */
  predicate ZSet(st: Cpu) { st.cc.z == (st.d == 0) }

  /** A load, sign-extended when it is a byte load, from a place the source may read. */
  lemma LoadSeq(cx: Ctx, byte: bool, mode: Mode, st: Cpu, m: Memory, a: Word)
    requires !mode.Imm? && Ea(mode, st).0 == a && FreeFor(cx, a, byte)
    requires Ea(mode, st).1.mem == st.mem && Agree(cx, st.mem, m)
    ensures var o := Exec([LoadOp(byte, mode)] + Sextend(byte), st);
            o.Fall? && o.st.d == Load(cx, m, a, byte).v && OnlyD(Ea(mode, st).1, o.st) && ZSet(o.st)
  {
    hide Do; hide Exec; hide Ea;
    if byte {
      assert [LoadOp(byte, mode)] + Sextend(byte) == [Ldb(mode), Sex];
      Exec2(Ldb(mode), Sex, st);
      DoLdb(mode, st);
      DoMove(Do(Ldb(mode), st));
      JoinParts(st.d / 0x100, m[a]);
      JoinParts(Ea(mode, st).1.d / 0x100, m[a]);
    } else {
      assert [LoadOp(byte, mode)] + Sextend(byte) == [Ldd(mode)];
      Exec1(Ldd(mode), st);
      DoLdd(mode, st);
      AgreeRead(cx, st.mem, m, a);
    }
  }

  /** Memory has been stored to and nothing else changed but flags. */
  ghost predicate Stored(cx: Ctx, st: Cpu, st': Cpu, m': Memory) {
    After(cx, st, st', m') && st'.x == st.x && st'.d == st.d
  }

  lemma StoreDo(cx: Ctx, byte: bool, mode: Mode, st: Cpu, m: Memory, a: Word)
    requires !mode.Imm? && Ea(mode, st).0 == a && FreeFor(cx, a, byte)
    requires Ea(mode, st).1.mem == st.mem && Ea(mode, st).1.d == st.d
    requires Agree(cx, st.mem, m) && cx.lo <= Ea(mode, st).1.s
    ensures Stored(cx, Ea(mode, st).1, Do(StoreOp(byte, mode), st), Store(cx, m, a, st.d, byte).m)
  {
    hide Do; hide Ea; hide WriteWord; hide Agree; hide Kept;
    if byte {
      DoStb(mode, st);
      AgreeWriteByte(cx, st.mem, m, a, st.d % 0x100, Ea(mode, st).1.s);
    } else {
      DoStd(mode, st);
      AgreeWrite(cx, st.mem, m, a, st.d, Ea(mode, st).1.s);
    }
  }

  lemma StxDo(cx: Ctx, mode: Mode, st: Cpu, m: Memory, a: Word)
    requires !mode.Imm? && Ea(mode, st).0 == a && FreeFor(cx, a, false)
    requires Ea(mode, st).1 == st
    requires Agree(cx, st.mem, m) && cx.lo <= st.s
    ensures Stored(cx, st, Do(Stx(mode), st), Store(cx, m, a, st.x, false).m)
  {
    hide Do; hide Ea; hide WriteWord; hide Agree; hide Kept;
    DoStx(mode, st);
    AgreeWrite(cx, st.mem, m, a, st.x, st.s);
  }

  /** Modes whose address depends on X, Y, U and S only and that change no register. */
  predicate Fixed(mode: Mode) { mode.OffX? || mode.OffY? || mode.OffU? }

  lemma EaFixed(mode: Mode, st: Cpu, st': Cpu)
    requires Fixed(mode) && OnlyD(st, st')
    ensures Ea(mode, st').0 == Ea(mode, st).0 && Ea(mode, st').1 == st'
  {}

  lemma LoadDo(cx: Ctx, byte: bool, mode: Mode, st: Cpu, m: Memory, a: Word)
    requires !mode.Imm? && Ea(mode, st).0 == a && FreeFor(cx, a, byte)
    requires Ea(mode, st).1.mem == st.mem && Agree(cx, st.mem, m)
    ensures var r := Do(LoadOp(byte, mode), st);
            && OnlyD(Ea(mode, st).1, r)
            && (if byte then r.B() == m[a] else r.d == ReadWord(m, a))
  {
    hide Do; hide Ea; hide ReadWord;
    if byte {
      DoLdb(mode, st);
      JoinParts(Ea(mode, st).1.d / 0x100, m[a]);
    } else {
      DoLdd(mode, st);
      AgreeRead(cx, st.mem, m, a);
    }
  }

  lemma LeaxVar(cx: Ctx, v: Var, st: Cpu, m: Memory)
    requires Ready(cx, st, m, 0)
    ensures var r := Do(Leax(VarMode(v)), st);
            r.x == AddrOf(cx, v) && r.d == st.d && OnlyDX(st, r)
  {
    hide Do; hide Agree;
    DoLeax(VarMode(v), st);
    VarOperand(cx, v, st, m);
  }

  lemma LdxVar(cx: Ctx, v: Var, st: Cpu, m: Memory)
    requires Ready(cx, st, m, 0) && FreeFor(cx, AddrOf(cx, v), false)
    ensures var r := Do(Ldx(VarMode(v)), st);
            r.x == ReadWord(m, AddrOf(cx, v)) && r.d == st.d && OnlyDX(st, r)
  {
    hide Do; hide Agree; hide Operand16; hide ReadWord;
    DoLdx(VarMode(v), st);
    VarOperand(cx, v, st, m);
  }

  lemma LeaxDX(st: Cpu)
    ensures var r := Do(Leax(DX), st);
            r.x == Wrap(st.x + st.d) && r.d == st.d && OnlyDX(st, r)
  {
    hide Do;
    DoLeax(DX, st);
  }

  lemma MoveX(st: Cpu)
    ensures var r := Do(TfrDX, st); r.x == st.d && r.d == st.d && OnlyDX(st, r)
    ensures var r := Do(TfrXD, st); r.d == st.x && OnlyD(st, r)
  {
    hide Do;
    DoMove(st);
  }

  lemma NegCorrect(st: Cpu)
    ensures var o := Exec([Nega, Negb, Sbca(0)], st);
            o.Fall? && o.st.d == Wrap(-(st.d as int)) && OnlyD(st, o.st)
  {
    hide Do; hide Exec;
    Exec3(Nega, Negb, Sbca(0), st);
    DoNega(st);
    var s1 := Do(Nega, st);
    DoNegb(s1);
    var s2 := Do(Negb, s1);
    DoSbca(s2);
    JoinParts(Wrap8(-(st.A() as int)), st.B());
    JoinParts(s1.A(), Wrap8(-(st.B() as int)));
    NegHalves(st.A(), st.B());
  }

  lemma NegHalves(a: Byte, b: Byte)
    ensures Join(Wrap8(Wrap8(-(a as int)) as int - if b != 0 then 1 else 0), Wrap8(-(b as int))) == Wrap(-(Join(a, b) as int))
  {}

  lemma DoNega(st: Cpu)
    ensures var r := Do(Nega, st); r.d == Join(Wrap8(-(st.A() as int)), st.B()) && OnlyD(st, r)
  {}

  lemma DoNegb(st: Cpu)
    ensures var r := Do(Negb, st);
            r.d == Join(st.A(), Wrap8(-(st.B() as int))) && r.cc.c == (st.B() != 0) && OnlyD(st, r)
  {}

  lemma DoSbca(st: Cpu)
    ensures var r := Do(Sbca(0), st);
            r.d == Join(Wrap8(st.A() as int - if st.cc.c then 1 else 0), st.B()) && OnlyD(st, r)
  {}

  lemma ComCorrect(st: Cpu)
    ensures var o := Exec([Coma, Comb], st);
            o.Fall? && o.st.d == 0xffff - st.d && OnlyD(st, o.st)
  {
    hide Do; hide Exec;
    Exec2(Coma, Comb, st);
    DoCom(st);
    DoCom(Do(Coma, st));
    JoinParts(0xff - st.A(), st.B());
  }

  lemma DoCom(st: Cpu)
    ensures var r := Do(Coma, st); r.d == Join(0xff - st.A(), st.B()) && OnlyD(st, r)
    ensures var r := Do(Comb, st); r.d == Join(st.A(), 0xff - st.B()) && OnlyD(st, r)
  {}

  lemma ClearD(st: Cpu)
    ensures var o := Exec([Clra, Clrb], st); o.Fall? && o.st.d == 0 && OnlyD(st, o.st)
  {
    hide Do; hide Exec;
    Exec2(Clra, Clrb, st);
    DoClr(st);
    DoClr(Do(Clra, st));
    JoinParts(0, st.B());
  }

  lemma DoClr(st: Cpu)
    ensures var r := Do(Clra, st); r.d == Join(0, st.B()) && OnlyD(st, r)
    ensures var r := Do(Clrb, st); r.d == Join(st.A(), 0) && OnlyD(st, r)
  {}
}
