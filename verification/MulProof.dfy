/** Multiplication by 1..10 without the library. */
module MulProof {
  import opened Machine
  import opened Runtime
  import opened Engine
  import opened Source
  import opened CodeGen
  import opened ExprProof
  import opened OpProof

  lemma DoubleD(st: Cpu)
    ensures var o := Exec([Aslb, Rola], st);
            o.Fall? && o.st.d == Wrap(2 * st.d) && OnlyD(st, o.st)
  {
    hide Do; hide Exec; hide Wrap; hide Wrap8; hide Join; hide OnlyD;
    Exec2(Aslb, Rola, st);
    DoAslb(st);
    DoRola(Do(Aslb, st));
    OnlyDTrans(st, Do(Aslb, st), Do(Rola, Do(Aslb, st)));
    DoubleBytes(st, Do(Aslb, st));
  }

  lemma OnlyDTrans(a: Cpu, b: Cpu, c: Cpu)
    requires OnlyD(a, b) && OnlyD(b, c)
    ensures OnlyD(a, c)
  {}

  lemma DoubleBytes(st: Cpu, st1: Cpu)
    requires st1.d == Join(st.A(), Wrap8(2 * st.B()))
    ensures Join(Wrap8(2 * st1.A() + if st.B() >= 0x80 then 1 else 0), st1.B()) == Wrap(2 * st.d)
  {
    hide Wrap8; hide Wrap; hide Join;
    JoinParts(st.A(), Wrap8(2 * st.B()));
    DoubleJoin(st.d, if st.B() >= 0x80 then 1 else 0);
  }

  lemma DoubleJoin(d: Word, c: int)
    requires c == if d % 0x100 >= 0x80 then 1 else 0
    ensures Join(Wrap8(2 * (d / 0x100) + c), Wrap8(2 * (d % 0x100))) == Wrap(2 * d)
  {
    hide Wrap; hide Wrap8;
    var a, b := d / 0x100, d % 0x100;
    assert Wrap8(2 * b) == 2 * b - 0x100 * c by { DoubleLow(b, c); }
    DoubleHigh(a, c);
    DoubleWord(d, a, 2 * a + c);
  }

  lemma DoubleLow(b: Byte, c: int)
    requires c == if b >= 0x80 then 1 else 0
    ensures Wrap8(2 * b) == 2 * b - 0x100 * c
  {}

  lemma DoubleHigh(a: Byte, c: int)
    requires 0 <= c <= 1
    ensures Wrap8(2 * a + c) == if a >= 0x80 then 2 * a + c - 0x100 else 2 * a + c
  {}

  lemma DoubleWord(d: Word, a: Byte, t: int)
    requires a == d / 0x100
    ensures Wrap(2 * d) == if a >= 0x80 then 2 * d - 0x1_0000 else 2 * d
  {}

  lemma DoAslb(st: Cpu)
    ensures var r := Do(Aslb, st);
            r.d == Join(st.A(), Wrap8(2 * st.B())) && r.cc.c == (st.B() >= 0x80) && OnlyD(st, r)
  {}

  lemma DoRola(st: Cpu)
    ensures var r := Do(Rola, st);
            r.d == Join(Wrap8(2 * st.A() + if st.cc.c then 1 else 0), st.B()) && OnlyD(st, r)
  {}

  lemma {:induction false} ShiftsCorrect(j: nat, st: Cpu)
    ensures var o := Exec(Shifts(j), st);
            o.Fall? && o.st.d == Wrap(Pow2(j) * st.d) && OnlyD(st, o.st)
  {
    hide Do; hide Exec; hide Wrap;
    if j == 0 {
      Exec0(st);
      assert Wrap(st.d) == st.d by { WrapSmall(st.d); }
    } else {
      DoubleD(st);
      Compose([Aslb, Rola], Shifts(j - 1), st);
      var st1 := Exec([Aslb, Rola], st).st;
      ShiftsCorrect(j - 1, st1);
      WrapScale(Pow2(j - 1), 2 * st.d);
      assert Pow2(j - 1) * (2 * st.d) == Pow2(j) * st.d;
    }
  }

  /** The j-fold double of D plus or minus D, with S back where it was. */
  lemma CombineCorrect(cx: Ctx, j: nat, plus: bool, st: Cpu, m: Memory)
    requires Ready(cx, st, m, 2)
    ensures var o := Exec(Combine(j, plus), st);
            && o.Fall? && After(cx, st, o.st, m)
            && o.st.d == Wrap(Pow2(j) * st.d + if plus then st.d as int else -(st.d as int))
  {
    hide Do; hide Exec; hide Wrap; hide Agree; hide Shifts; hide Pow2; hide ReadWord; hide WriteWord;
    var last := if plus then Addd(SInc(2)) else Subd(SInc(2));
    PushReady(cx, st, m, 2, st.d);
    ExecCons(PshsD, Shifts(j) + [last], st);
    DoStack(st);
    var st1 := Push(st, st.d);
    ShiftsCorrect(j, st1);
    Compose(Shifts(j), [last], st1);
    var st2 := Exec(Shifts(j), st1).st;
    assert After(cx, st1, st2, m);
    TopKept(cx, st, m, 2, st.d, st2, m);
    assert [last] == TosOp(if plus then Add else Sub);
    TosSimple(if plus then Add else Sub, st2);
    WrapAdd(Pow2(j) * st.d, st.d);
    assert Pop(st2).s == st.s;
  }

  lemma WrapAdd(a: int, d: int)
    ensures Wrap(Wrap(a) + d) == Wrap(a + d) && Wrap(Wrap(a) - d) == Wrap(a - d)
  {}

  lemma MulCorrect(cx: Ctx, k: int, st: Cpu, m: Memory)
    requires 0 < k <= 10 && Ready(cx, st, m, 2)
    ensures var o := Exec(MulCode(k), st);
            o.Fall? && After(cx, st, o.st, m) && o.st.d == Wrap(k * st.d)
  {
    hide Do; hide Exec; hide Agree; hide Shifts; hide Combine; hide Kept; hide Wrap;
    Powers();
    match k
    case 1 => Exec0(st); WrapSmall(st.d);
      KeptRefl(cx, st);
    case 2 => ShiftsCorrect(1, st); KeptRefl(cx, st);
    case 4 => ShiftsCorrect(2, st); KeptRefl(cx, st);
    case 8 => ShiftsCorrect(3, st); KeptRefl(cx, st);
    case 3 => CombineCorrect(cx, 1, true, st, m);
    case 5 => CombineCorrect(cx, 2, true, st, m);
    case 7 => CombineCorrect(cx, 3, false, st, m);
    case 9 => CombineCorrect(cx, 3, true, st, m);
    case 6 => DoubleThen(cx, 1, st, m);
    case 10 => DoubleThen(cx, 2, st, m);
    case _ =>
  }

  lemma Powers()
    ensures Pow2(1) == 2 && Pow2(2) == 4 && Pow2(3) == 8
  {}

  lemma DoubleThen(cx: Ctx, j: nat, st: Cpu, m: Memory)
    requires Ready(cx, st, m, 2)
    ensures var o := Exec(Shifts(1) + Combine(j, true), st);
            o.Fall? && After(cx, st, o.st, m) && o.st.d == Wrap((2 * Pow2(j) + 2) * st.d)
  {
    hide Do; hide Exec; hide Agree; hide Shifts; hide Combine; hide Wrap;
    Powers();
    ShiftsCorrect(1, st);
    Compose(Shifts(1), Combine(j, true), st);
    var st1 := Exec(Shifts(1), st).st;
    CombineCorrect(cx, j, true, st1, m);
    KeptRefl(cx, st);
    WrapScale(Pow2(j) + 1, 2 * st.d);
    assert (Pow2(j) + 1) * Wrap(2 * st.d) == Pow2(j) * Wrap(2 * st.d) + Wrap(2 * st.d);
    assert (Pow2(j) + 1) * (2 * st.d) == (2 * Pow2(j) + 2) * st.d;
  }
}
