/** Where the code generator departs from the meaning of the source, and exactly when. */
module Exceptions {
  import opened Machine
  import opened Runtime
  import opened Engine
  import opened Source
  import opened CodeGen
  import opened ExprProof
  import opened OpProof
  import opened AccessProof
  import opened ExprCorrect

  /** A constant in a condition is compared with zero as a host integer: the code is right, whichever way
      it is to jump, if and only if the constant is zero or not a multiple of 2^16. */
  lemma ConstantCondition(c: int, cond: bool, l: nat, n: nat, k: bool, cx: Ctx, st: Cpu, m: Memory)
    requires Ready(cx, st, m, 0)
    ensures Decides(cx, GenB(Const(c), cond, l, n, k).code, st, cond, l, Eval(Const(c), cx, m)) <==> ConstCondOk(c)
  {
    hide Agree; hide Eval;
    if ConstCondOk(c) {
      ConstTest(c, cond, l, n, k, cx, st, m);
    } else {
      ConstValue(c, cx, m);
      assert [Jmp(l)] == [Jmp(l)] + [];
      ExecJmp(l, [], st);
      Exec0(st);
    }
  }

  /** For example 65536, whose value is zero, counts as true. */
  lemma WideConstant(cond: bool, l: nat, n: nat, k: bool, cx: Ctx, st: Cpu, m: Memory)
    requires Ready(cx, st, m, 0)
    ensures Eval(Const(0x1_0000), cx, m) == Val(0, m)
    ensures !Decides(cx, GenB(Const(0x1_0000), cond, l, n, k).code, st, cond, l, Val(0, m))
  {
    hide Decides; hide GenB; hide Eval; hide Ready;
    ConstValue(0x1_0000, cx, m);
    ConstantCondition(0x1_0000, cond, l, n, k, cx, st, m);
  }

  /** An assignment to a char has the value of the char that it stores, but the code leaves in D what it
      assigned: that is the value if and only if a char holds it. */
  lemma CharAssignment(e: Expr, n: nat, k: bool, cx: Ctx, st: Cpu, m: Memory)
    requires (e.Assign? || e.AssOp?) && e.byte && Sound(e) && Ready(cx, st, m, Need(e)) && Eval(e, cx, m).Val?
    ensures var r := Eval(e, cx, m);
            Computes(cx, GenE(e, n, k).code, st, Val(Sext(r.v % 0x100), r.m)) <==> -0x80 <= Signed(r.v) < 0x80
  {
    hide Exec; hide Agree; hide Kept; hide Eval; hide GenE; hide Sound; hide Need; hide Ready;
    CorrectE(e, n, k, cx, st, m);
    CharFits(Eval(e, cx, m).v);
  }

  lemma CharFits(v: Word)
    ensures Sext(v % 0x100) == v <==> -0x80 <= Signed(v) < 0x80
  {}

  /** For example `c = 200` has the value -56. */
  lemma WideChar(n: nat, k: bool, cx: Ctx, st: Cpu, m: Memory)
    requires Ready(cx, st, m, Need(Assign(Plain(GVar(0)), Const(200), true))) && FreeFor(cx, AddrOf(cx, GVar(0)), true)
    ensures var e := Assign(Plain(GVar(0)), Const(200), true);
            var r := Eval(e, cx, m);
            r == Val(200, m[AddrOf(cx, GVar(0)) := 200]) && !Computes(cx, GenE(e, n, k).code, st, Val(Wrap(-56), r.m))
  {
    hide Exec; hide Agree; hide Kept; hide GenE; hide Ready; hide Computes;
    var e := Assign(Plain(GVar(0)), Const(200), true);
    ConstValue(200, cx, m);
    CharAssignment(e, n, k, cx, st, m);
  }

  // ---------- compound assignment through a pointer with a library operator ----------

  /** Whether byte b is part of what is stored at a. */
  predicate Covers(a: Word, byte: bool, b: int) { b == a || (!byte && b == Wrap(a + 1)) }

  /** The part of w that goes to byte b of the place a. */
  function Piece(a: Word, w: Word, byte: bool, b: int): Byte { if byte || b != a then w % 0x100 else w / 0x100 }

  /**
    Storing w at x does what storing it at a should: the bytes at a that the store misses hold
    their part of w already, and so do the bytes it hits instead, unless those are scratch
    below S; where both places overlap they get the same.  `mem` is the processor's memory and
    m the source's.
   */
  predicate Harmless(cx: Ctx, st: Cpu, m: Memory, a: Word, x: Word, w: Word, byte: bool) {
    && (forall b: Word :: Covers(a, byte, b) && !Covers(x, byte, b) ==> m[b] == Piece(a, w, byte, b))
    && (forall b: Word :: Covers(a, byte, b) && Covers(x, byte, b) ==> Piece(a, w, byte, b) == Piece(x, w, byte, b))
    && (forall b: Word :: Covers(x, byte, b) && !Covers(a, byte, b) && !(cx.lo <= b < st.s) ==>
          (if Free(cx, b) then m[b] else st.mem[b]) == Piece(x, w, byte, b))
  }

  function Written(m: Memory, a: Word, w: Word, byte: bool): Memory {
    if byte then m[a := w % 0x100] else WriteWord(m, a, w)
  }

  lemma WrittenAt(m: Memory, a: Word, w: Word, byte: bool, b: int)
    requires 0 <= b < 0x1_0000
    ensures Written(m, a, w, byte)[b] == if Covers(a, byte, b) then Piece(a, w, byte, b) else m[b]
  {}

  /** The memories after the two stores agree where they must exactly when that is so. */
  lemma StoreElsewhere(cx: Ctx, st: Cpu, mem: Memory, m: Memory, a: Word, x: Word, w: Word, byte: bool)
    requires Agree(cx, mem, m) && Kept(cx, st.s, st.mem, mem) && FreeFor(cx, a, byte)
    requires 0 <= cx.lo <= st.s <= cx.hi <= 0x1_0000
    ensures Agree(cx, Written(mem, x, w, byte), Written(m, a, w, byte)) && Kept(cx, st.s, st.mem, Written(mem, x, w, byte))
            <==> Harmless(cx, st, m, a, x, w, byte)
  {
    hide Written;
    forall b: int | 0 <= b < 0x1_0000
      ensures Written(mem, x, w, byte)[b] == if Covers(x, byte, b) then Piece(x, w, byte, b) else mem[b]
      ensures Written(m, a, w, byte)[b] == if Covers(a, byte, b) then Piece(a, w, byte, b) else m[b]
    {
      WrittenAt(mem, x, w, byte, b);
      WrittenAt(m, a, w, byte, b);
    }
    assert forall b :: 0 <= b < 0x1_0000 && Covers(a, byte, b) ==> Free(cx, b);
  }

  /** In particular, when the two words share no byte and neither lies in scratch, both must
      hold the result already. */
  lemma HarmlessApart(cx: Ctx, st: Cpu, m: Memory, a: Word, x: Word, w: Word)
    requires a != x && Wrap(a + 1) != x && Wrap(x + 1) != a && FreeFor(cx, x, false) && cx.lo <= st.s <= cx.hi
    ensures Harmless(cx, st, m, a, x, w, false) <==> ReadWord(m, a) == w && ReadWord(m, x) == w
  {
    hide Harmless; hide Free;
    WordIs(m, a, w);
    WordIs(m, x, w);
    HarmlessBytes(cx, st, m, a, x, w);
  }

  lemma WordIs(m: Memory, a: Word, w: Word)
    ensures ReadWord(m, a) == w <==> m[a] == w / 0x100 && m[Wrap(a + 1)] == w % 0x100
  {}

  lemma HarmlessBytes(cx: Ctx, st: Cpu, m: Memory, a: Word, x: Word, w: Word)
    requires a != x && Wrap(a + 1) != x && Wrap(x + 1) != a && FreeFor(cx, x, false) && cx.lo <= st.s <= cx.hi
    ensures Harmless(cx, st, m, a, x, w, false) <==>
            m[a] == w / 0x100 && m[Wrap(a + 1)] == w % 0x100 && m[x] == w / 0x100 && m[Wrap(x + 1)] == w % 0x100
  {
    assert Covers(a, false, a) && Covers(a, false, Wrap(a + 1)) && Covers(x, false, x) && Covers(x, false, Wrap(x + 1));
    assert Wrap(a + 1) != a && Wrap(x + 1) != x && Wrap(a + 1) != Wrap(x + 1);
  }

  /** What is computed before the last store: the value in D, and X as the routine left it. */
  lemma BeforeStore(lv: LVal, e: Expr, op: BinOp, byte: bool, n: nat, k: bool, cx: Ctx, st: Cpu, m: Memory)
    requires lv.Indirect? && !Simple(op) && SoundL(lv) && Sound(e)
    requires Ready(cx, st, m, Max(Max(Need(e), 2 + NeedL(lv)), NeedOp(op)))
    requires EvalAssOp(lv, e, op, byte, cx, m).Val?
    ensures var r1 := Eval(e, cx, m);
            var r2 := EvalL(lv, cx, r1.m);
            var v := Load(cx, r2.m, r2.v, byte).v;
            var g1 := GenE(e, n, k);
            var c := g1.code + ([PshsD] + (GenL(lv, g1.next, g1.control).code + ([LoadOp(byte, OffX(0))] + Sextend(byte) + TosOp(op))));
            var o := Exec(c, st);
            && GenAssOp(lv, e, op, byte, n, k).code == c + [StoreOp(byte, OffX(0))]
            && o.Fall? && o.st.d == Apply(op, v, r1.v) && o.st.x == LeftInX(LibOf(op), v, r1.v)
            && After(cx, st, o.st, r2.m)
  {
    hide Do; hide Exec; hide Agree; hide Kept; hide Ea; hide Load; hide Store; hide Apply; hide Eval; hide EvalL; hide TosOp;
    hide Sextend; hide Sound; hide GenL; hide GenE; hide Push; hide Need; hide LeftInX; hide LibOf;
    CorrectE(e, n, k, cx, st, m);
    var r1 := Eval(e, cx, m);
    var g1 := GenE(e, n, k);
    var st1 := Exec(g1.code, st).st;
    var r2 := EvalL(lv, cx, r1.m);
    LoadKeeps(cx, r2.m, r2.v, byte);
    var need := Max(2 + NeedL(lv), NeedOp(op));
    var g2 := GenL(lv, g1.next, g1.control);
    var tail := [LoadOp(byte, OffX(0))] + Sextend(byte) + TosOp(op);
    PushThen(cx, g1.code, g2.code, tail, st, m, need, r1);
    CorrectL(lv, g1.next, g1.control, cx, Push(st1, r1.v), r1.m);
    LoadAndCall(cx, g2.code, op, byte, st1, r1.m, need, r1.v, r2);
    KeptTrans(cx, st, st1, Exec(g2.code + tail, Push(st1, r1.v)).st, r1.m, r2.m);
  }

  lemma LoadAndCall(cx: Ctx, c2: seq<Instr>, op: BinOp, byte: bool, st1: Cpu, m1: Memory, need: int, w: Word, r2: Result)
    requires Ready(cx, st1, m1, need) && need >= NeedOp(op) && need >= 2 && !Simple(op)
    requires r2.Val? && Points(cx, c2, Push(st1, w), r2) && FreeFor(cx, r2.v, byte)
    ensures var v := Load(cx, r2.m, r2.v, byte).v;
            var o := Exec(c2 + ([LoadOp(byte, OffX(0))] + Sextend(byte) + TosOp(op)), Push(st1, w));
            && o.Fall? && o.st.d == Apply(op, v, w) && o.st.x == LeftInX(LibOf(op), v, w) && After(cx, st1, o.st, r2.m)
  {
    hide Do; hide Exec; hide Agree; hide Kept; hide Ea; hide Load; hide Apply; hide TosOp; hide Sextend; hide Push; hide ReadWord;
    hide LeftInX; hide LibOf;
    var load := [LoadOp(byte, OffX(0))] + Sextend(byte);
    var st2 := Exec(c2, Push(st1, w)).st;
    TopKept(cx, st1, m1, need, w, st2, r2.m);
    AfterReady(cx, st1, m1, need, Pop(st2), r2.m);
    OffX0(st2);
    LoadKeeps(cx, r2.m, r2.v, byte);
    LoadSeq(cx, byte, OffX(0), st2, r2.m, r2.v);
    var st3 := Exec(load, st2).st;
    TosLib(cx, op, st3, r2.m);
    Compose(load, TosOp(op), st2);
    Compose(c2, load + TosOp(op), Push(st1, w));
    KeptTrans(cx, st1, Pop(st2), Exec(TosOp(op), st3).st, r2.m, r2.m);
  }

  /**
    `*p op= e` with an operator that needs the library stores at the address that the routine
    leaves in X.  The assignment has its meaning if and only if that does no harm.
   */
  lemma PointerAssignment(lv: LVal, e: Expr, op: BinOp, byte: bool, n: nat, k: bool, cx: Ctx, st: Cpu, m: Memory)
    requires lv.Indirect? && !Simple(op) && SoundL(lv) && Sound(e)
    requires Ready(cx, st, m, Max(Max(Need(e), 2 + NeedL(lv)), NeedOp(op)))
    requires EvalAssOp(lv, e, op, byte, cx, m).Val?
    ensures var r1 := Eval(e, cx, m);
            var r2 := EvalL(lv, cx, r1.m);
            var v := Load(cx, r2.m, r2.v, byte).v;
            Computes(cx, GenAssOp(lv, e, op, byte, n, k).code, st, EvalAssOp(lv, e, op, byte, cx, m))
            <==> Harmless(cx, st, r2.m, r2.v, LeftInX(LibOf(op), v, r1.v), Apply(op, v, r1.v), byte)
  {
    hide Do; hide Exec; hide Agree; hide Kept; hide Apply; hide Eval; hide EvalL; hide TosOp; hide Harmless; hide Written;
    hide Sextend; hide Sound; hide GenL; hide GenE; hide GenAssOp; hide Push; hide Need; hide LeftInX; hide LibOf;
    BeforeStore(lv, e, op, byte, n, k, cx, st, m);
    var r1 := Eval(e, cx, m);
    var r2 := EvalL(lv, cx, r1.m);
    var w := Apply(op, Load(cx, r2.m, r2.v, byte).v, r1.v);
    var g1 := GenE(e, n, k);
    var c := g1.code + ([PshsD] + (GenL(lv, g1.next, g1.control).code + ([LoadOp(byte, OffX(0))] + Sextend(byte) + TosOp(op))));
    var st3 := Exec(c, st).st;
    Compose(c, [StoreOp(byte, OffX(0))], st);
    Exec1(StoreOp(byte, OffX(0)), st3);
    StoreOffX0(byte, st3);
    StoreElsewhere(cx, st, st3.mem, r2.m, r2.v, st3.x, w, byte);
    StoredValue(lv, e, op, byte, cx, m);
  }

  /** For example `*p *= 3` with p a global that points to the word 1 at a: the product goes to
      address 3, which the multiplication has left in X. */
  lemma PointerFails(n: nat, k: bool, cx: Ctx, st: Cpu, m: Memory, a: Word)
    requires Ready(cx, st, m, 9) && PointsToOne(cx, m, a) && 5 <= a < 0xffff && FreeFor(cx, 3, false)
    ensures var p := Indirect(RVar(GVar(0)));
            && EvalAssOp(p, Const(3), Mul, false, cx, m) == Val(3, WriteWord(m, a, 3))
            && !Computes(cx, GenAssOp(p, Const(3), Mul, false, n, k).code, st, EvalAssOp(p, Const(3), Mul, false, cx, m))
  {
    hide EvalAssOp; hide Computes; hide GenAssOp; hide PointsToOne; hide Harmless; hide Ready;
    hide FreeFor; hide LeftInX; hide Apply; hide ReadWord; hide WriteWord; hide EvalL; hide Eval; hide Load; hide Sound;
    var p := Indirect(RVar(GVar(0)));
    TripledOne(cx, m, a);
    SmallNeed();
    PointerAssignment(p, Const(3), Mul, false, n, k, cx, st, m);
    RoomBelow(cx, st, m, 9);
    HarmlessApart(cx, st, m, a, 3, 3);
  }

  predicate PointsToOne(cx: Ctx, m: Memory, a: Word) {
    && FreeFor(cx, AddrOf(cx, GVar(0)), false) && ReadWord(m, AddrOf(cx, GVar(0))) == a
    && FreeFor(cx, a, false) && ReadWord(m, a) == 1
  }

  lemma SmallNeed()
    ensures Sound(RVar(GVar(0))) && Sound(Const(3)) && Need(Const(3)) == 0 && NeedL(Indirect(RVar(GVar(0)))) == 0
  {}

  lemma RoomBelow(cx: Ctx, st: Cpu, m: Memory, need: nat)
    requires Ready(cx, st, m, need)
    ensures cx.lo <= st.s <= cx.hi
  {}

  lemma TripledOne(cx: Ctx, m: Memory, a: Word)
    requires PointsToOne(cx, m, a)
    ensures var p := Indirect(RVar(GVar(0)));
            && Eval(Const(3), cx, m) == Val(3, m) && EvalL(p, cx, m) == Val(a, m) && Load(cx, m, a, false) == Val(1, m)
            && Apply(Mul, 1, 3) == 3 && LeftInX(LibOf(Mul), 1, 3) == 3
            && ReadWord(m, a) == 1
            && EvalAssOp(p, Const(3), Mul, false, cx, m) == Val(3, WriteWord(m, a, 3))
  {
    hide ReadWord; hide WriteWord;
    ConstValue(3, cx, m);
  }

  lemma StoreOffX0(byte: bool, st: Cpu)
    ensures var r := Do(StoreOp(byte, OffX(0)), st);
            r.mem == Written(st.mem, st.x, st.d, byte) && r.d == st.d && r.s == st.s && r.u == st.u && r.y == st.y
  {
    hide WriteWord;
  }

  lemma StoredValue(lv: LVal, e: Expr, op: BinOp, byte: bool, cx: Ctx, m: Memory)
    requires lv.Indirect? && !Simple(op) && EvalAssOp(lv, e, op, byte, cx, m).Val?
    ensures var r1 := Eval(e, cx, m);
            var r2 := EvalL(lv, cx, r1.m);
            var w := Apply(op, Load(cx, r2.m, r2.v, byte).v, r1.v);
            && r1.Val? && r2.Val? && FreeFor(cx, r2.v, byte)
            && EvalAssOp(lv, e, op, byte, cx, m) == Val(w, Written(r2.m, r2.v, w, byte))
  {
    hide Apply; hide Eval; hide EvalL; hide WriteWord; hide ReadWord;
  }
}
