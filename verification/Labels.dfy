/**
  Labels: the code of a tree defines each of the labels it takes from the counter exactly
  once and no other, and jumps only to those and to the target it is given.
 */
module Labels {
  import opened Machine
  import opened Engine
  import opened Source
  import opened CodeGen

  /** How often a label is defined. */
  ghost function Defs(code: seq<Instr>, l: nat): nat { multiset(code)[Label(l)] }

  ghost predicate DefinesOnce(code: seq<Instr>, lo: nat, hi: nat) {
    forall l: nat :: Defs(code, l) == if lo <= l < hi then 1 else 0
  }

  predicate IsJump(i: Instr) { i.Branch? || i.ShortEq? || i.Jmp? || i.ShortJmp? }

  ghost predicate JumpsWithin(code: seq<Instr>, lo: nat, hi: nat, ext: set<nat>) {
    forall i :: i in code ==> !i.Equ? && (IsJump(i) ==> lo <= i.l < hi || i.l in ext)
  }

  ghost predicate Fresh(g: Gen, n: nat, ext: set<nat>) {
    n <= g.next && DefinesOnce(g.code, n, g.next) && JumpsWithin(g.code, n, g.next, ext)
  }

  ghost predicate AllStraight(code: seq<Instr>) { forall i :: i in code ==> Straight(i) }

  /** A label outside the range is not found in the code. */
  lemma NotFound(code: seq<Instr>, lo: nat, hi: nat, l: nat)
    requires DefinesOnce(code, lo, hi) && !(lo <= l < hi)
    ensures Find(code, l) == |code|
  {
    assert Find(code, l) < |code| ==> Label(l) in multiset(code);
    assert Defs(code, l) == 0;
  }

  lemma DefsAppend(c1: seq<Instr>, c2: seq<Instr>, l: nat)
    ensures Defs(c1 + c2, l) == Defs(c1, l) + Defs(c2, l)
  {}

  lemma StraightDefs(code: seq<Instr>, n: nat)
    requires AllStraight(code)
    ensures DefinesOnce(code, n, n) && JumpsWithin(code, n, n, {})
  {
    forall l: nat ensures Defs(code, l) == 0 {
      assert !Straight(Label(l));
    }
  }

  /** Pieces with adjacent label ranges. */
  lemma Join2(c1: seq<Instr>, c2: seq<Instr>, lo: nat, mid: nat, hi: nat, e1: set<nat>, e2: set<nat>)
    requires lo <= mid <= hi
    requires DefinesOnce(c1, lo, mid) && JumpsWithin(c1, lo, mid, e1)
    requires DefinesOnce(c2, mid, hi) && JumpsWithin(c2, mid, hi, e2)
    ensures DefinesOnce(c1 + c2, lo, hi) && JumpsWithin(c1 + c2, lo, hi, e1 + e2)
  {
    forall l: nat ensures Defs(c1 + c2, l) == if lo <= l < hi then 1 else 0 {
      DefsAppend(c1, c2, l);
    }
  }

  lemma Tail(g: Gen, n: nat, ext: set<nat>, tail: seq<Instr>)
    requires Fresh(g, n, ext) && AllStraight(tail)
    ensures Fresh(g.Plus(tail), n, ext)
  {
    StraightDefs(tail, g.next);
    Join2(g.code, tail, n, g.next, g.next, ext, {});
    assert ext + {} == ext;
  }

  lemma Leaf(code: seq<Instr>, n: nat, k: bool)
    requires AllStraight(code)
    ensures Fresh(Gen(code, n, k), n, {})
  {
    StraightDefs(code, n);
  }

  lemma Two(g1: Gen, g2: Gen, mid: seq<Instr>, tail: seq<Instr>, n: nat)
    requires Fresh(g1, n, {}) && Fresh(g2, g1.next, {}) && AllStraight(mid) && AllStraight(tail)
    ensures Fresh(Gen(g1.code + (mid + (g2.code + tail)), g2.next, g2.control), n, {})
  {
    Tail(g2, g1.next, {}, tail);
    StraightDefs(mid, g1.next);
    var none: set<nat> := {};
    assert none + none == none;
    Join2(mid, g2.code + tail, g1.next, g1.next, g2.next, none, none);
    Join2(g1.code, mid + (g2.code + tail), n, g1.next, g2.next, none, none);
  }

  lemma Nothing(c1: seq<Instr>, c2: seq<Instr>)
    ensures c1 + ([] + (c2 + [])) == c1 + c2
  {
    assert [] + (c2 + []) == c2;
  }

  /** Sequencing without anything in between. */
  lemma Two0(g1: Gen, g2: Gen, n: nat, e1: set<nat>, e2: set<nat>)
    requires Fresh(g1, n, e1) && Fresh(g2, g1.next, e2)
    ensures Fresh(Gen(g1.code + g2.code, g2.next, g2.control), n, e1 + e2)
  {
    Join2(g1.code, g2.code, n, g1.next, g2.next, e1, e2);
  }

  /** Defining the label that the piece jumps out to. */
  lemma Close(code: seq<Instr>, n: nat, hi: nat, ext: set<nat>, tail: seq<Instr>)
    requires n < hi && DefinesOnce(code, n + 1, hi) && JumpsWithin(code, n + 1, hi, ext + {n})
    requires |tail| > 0 && tail[0] == Label(n) && AllStraight(tail[1..])
    ensures DefinesOnce(code + tail, n, hi) && JumpsWithin(code + tail, n, hi, ext)
  {
    assert tail == [Label(n)] + tail[1..];
    forall l: nat ensures Defs(code + tail, l) == if n <= l < hi then 1 else 0 {
      DefsAppend(code, tail, l);
      DefsAppend([Label(n)], tail[1..], l);
      StraightDefs(tail[1..], n);
    }
  }

  lemma LabelsE(e: Expr, n: nat, k: bool)
    ensures Fresh(GenE(e, n, k), n, {})
    decreases Size(e), if IsBool(e) then 5 else 3, 1
  {
    hide Fresh; hide GenRInd; hide GenBin; hide GenAssign; hide GenAssOp; hide GenInc; hide GenL; hide GenB;
    if IsBool(e) {
      LabelsBool(e, n, k);
    } else {
      LabelsValue(e, n, k);
    }
  }

  lemma LabelsValue(e: Expr, n: nat, k: bool)
    requires !IsBool(e)
    ensures Fresh(GenE(e, n, k), n, {})
    decreases Size(e), 2
  {
    hide Fresh; hide GenRInd; hide GenBin; hide GenAssign; hide GenAssOp; hide GenInc; hide GenL; hide GenB; hide GenCond;
    match e
    case RVar(_) => LabelsLeaf(e, n, k);
    case CRVar(_) => LabelsLeaf(e, n, k);
    case Const(_) => LabelsLeaf(e, n, k);
    case Address(_) => LabelsLeaf(e, n, k);
    case RInd(a, byte) => LabelsRInd(a, byte, n, k);
    case Minus(a) => LabelsE(a, n, k); Tail(GenE(a, n, k), n, {}, [Nega, Negb, Sbca(0)]);
    case BNot(a) => LabelsE(a, n, k); Tail(GenE(a, n, k), n, {}, [Coma, Comb]);
    case PreInc(lv, i) => LabelsInc(lv, i, n, k);
    case PostInc(lv, i) => LabelsInc(lv, i, n, k); Tail(GenInc(lv, i, n, k), n, {}, [Subd(Imm(i))]);
    case CStep(lv, up, post) =>
      LabelsL(lv, n, k);
      LabelsStep(lv, up, post, n, k);
    case Bin(op, l, r) => LabelsBin(op, l, r, n, k);
    case CondE(c, t, f) => LabelsCond(c, t, f, n, k);
    case Assign(lv, a, byte) => LabelsAssign(lv, a, byte, n, k);
    case AssOp(lv, a, op, byte) => LabelsAssOp(lv, a, op, byte, n, k);
    case Comma(l, r) => LabelsE(l, n, k); var g1 := GenE(l, n, k); LabelsE(r, g1.next, g1.control);
      Two(g1, GenE(r, g1.next, g1.control), [], [], n);
      Nothing(g1.code, GenE(r, g1.next, g1.control).code);
    case CommaL(lv, r) => LabelsL(lv, n, k); var g1 := GenL(lv, n, k); LabelsE(r, g1.next, g1.control);
      Two(g1, GenE(r, g1.next, g1.control), [], [], n);
      Nothing(g1.code, GenE(r, g1.next, g1.control).code);
  }


  lemma LabelsLeaf(e: Expr, n: nat, k: bool)
    requires e.RVar? || e.CRVar? || e.Const? || e.Address?
    ensures Fresh(GenE(e, n, k), n, {})
  {
    hide Fresh; hide VarMode;
    if e.RVar? { Leaf([Ldd(VarMode(e.v))], n, k); }
    if e.CRVar? { Leaf([Ldb(VarMode(e.v)), Sex], n, k); }
    if e.Const? { Leaf(if e.c != 0 then [Ldd(Imm(e.c))] else [Clra, Clrb], n, k); }
    if e.Address? { Leaf([Leax(VarMode(e.v)), TfrXD], n, k); }
  }

  lemma LabelsStep(lv: LVal, up: bool, post: bool, n: nat, k: bool)
    requires Fresh(GenL(lv, n, k), n, {})
    ensures Fresh(GenE(CStep(lv, up, post), n, k), n, {})
  {
    hide Fresh; hide GenL;
    var step := if up then Inc(OffX(0)) else Dec(OffX(0));
    Tail(GenL(lv, n, k), n, {}, if post then [Ldb(OffX(0)), step, Sex] else [step, Ldb(OffX(0)), Sex]);
  }

  lemma LabelsBool(e: Expr, n: nat, k: bool)
    requires IsBool(e)
    ensures Fresh(GenE(e, n, k), n, {})
    decreases Size(e), 5, 0
  {
    hide GenB; hide DefinesOnce; hide JumpsWithin;
    LabelsB(e, true, n, n + 1, k);
    var g := GenB(e, true, n, n + 1, k);
    var tail := [Clra, Clrb, SkipBytes(3), Label(n), Ldd(Imm(1))];
    CloseValue(g, n);
  }

  /** The 0/1 tail of a condition used as a value. */
  lemma CloseValue(g: Gen, n: nat)
    requires Fresh(g, n + 1, {n})
    ensures var tail := [Clra, Clrb, SkipBytes(3), Label(n), Ldd(Imm(1))];
            Fresh(Gen(g.code + tail, g.next, true), n, {})
  {
    hide Defs;
    var tail := [Clra, Clrb, SkipBytes(3), Label(n), Ldd(Imm(1))];
    ValueJumps(g, n);
    forall x: nat ensures Defs(g.code + tail, x) == if n <= x < g.next then 1 else 0 {
      DefsAppend(g.code, tail, x);
      DefsValue(n, x);
    }
  }

  lemma DefsValue(n: nat, x: nat)
    ensures Defs([Clra, Clrb, SkipBytes(3), Label(n), Ldd(Imm(1))], x) == if x == n then 1 else 0
  {}

  lemma ValueJumps(g: Gen, n: nat)
    requires Fresh(g, n + 1, {n})
    ensures JumpsWithin(g.code + [Clra, Clrb, SkipBytes(3), Label(n), Ldd(Imm(1))], n, g.next, {})
  {
    hide DefinesOnce;
  }

  lemma LabelsL(lv: LVal, n: nat, k: bool)
    ensures Fresh(GenL(lv, n, k), n, {})
    decreases LSize(lv), 0
  {
    hide Fresh; hide GenAddr;
    match lv
    case Plain(v) => Leaf([Leax(VarMode(v))], n, k);
    case Indirect(e) => LabelsAddr(e, n, k);
  }

  lemma LabelsAddr(e: Expr, n: nat, k: bool)
    ensures Fresh(GenAddr(e, n, k), n, {})
    decreases Size(e), 6
  {
    hide Fresh; hide GenE;
    if e.RVar? { Leaf([Ldx(VarMode(e.v))], n, k); }
    else if e.Bin? && e.op.Add? && e.l.Address? {
      LabelsE(e.r, n, k);
      Tail(GenE(e.r, n, k), n, {}, [Leax(VarMode(e.l.v)), Leax(DX)]);
    } else if e.Bin? && e.op.Add? && e.r.RVar? {
      LabelsE(e.l, n, k);
      Tail(GenE(e.l, n, k), n, {}, [Ldx(VarMode(e.r.v)), Leax(DX)]);
    } else {
      LabelsE(e, n, k);
      Tail(GenE(e, n, k), n, {}, [TfrDX]);
    }
  }

  lemma LabelsInc(lv: LVal, i: int, n: nat, k: bool)
    ensures Fresh(GenInc(lv, i, n, k), n, {})
    decreases LSize(lv), 1
  {
    hide Fresh; hide GenL;
    if lv.Plain? { Leaf([Ldd(VarMode(lv.v)), Addd(Imm(i)), Std(VarMode(lv.v))], n, k); }
    else {
      LabelsL(lv, n, k);
      Tail(GenL(lv, n, k), n, {}, [Ldd(OffX(0)), Addd(Imm(i)), Std(OffX(0))]);
    }
  }

  lemma StraightOp(op: BinOp, e: Expr)
    ensures Late(e) ==> AllStraight(Oprt(op, e))
    ensures AllStraight(TosOp(op))
  {}

  lemma StraightPush()
    ensures AllStraight([PshsD]) && AllStraight([])
  {}

  lemma StraightMul(c: int)
    ensures AllStraight(MulCode(c))
  {
    ShiftsStraight(1); ShiftsStraight(2); ShiftsStraight(3);
  }

  lemma {:induction false} ShiftsStraight(j: nat)
    ensures AllStraight(Shifts(j))
  {
    if j != 0 { ShiftsStraight(j - 1); }
  }

  lemma LabelsBin(op: BinOp, l: Expr, r: Expr, n: nat, k: bool)
    ensures Fresh(GenBin(op, l, r, n, k), n, {})
    decreases Size(l) + Size(r) + 1, 1
  {
    hide Fresh; hide GenBin;
    if Simple(op) && Late(r) { LabelsLate(op, l, r, n, k); }
    else if SmallMul(op, r) { LabelsSmallMul(op, l, r, n, k); }
    else { LabelsStacked(op, l, r, n, k); }
  }

  lemma LabelsLate(op: BinOp, l: Expr, r: Expr, n: nat, k: bool)
    requires Simple(op) && Late(r)
    ensures Fresh(GenBin(op, l, r, n, k), n, {})
    decreases Size(l) + Size(r) + 1, 0
  {
    hide Fresh; hide GenE; hide Oprt; hide TosOp; hide AllStraight;
    LabelsE(l, n, k);
    StraightOp(op, r);
    Tail(GenE(l, n, k), n, {}, Oprt(op, r));
  }

  lemma LabelsSmallMul(op: BinOp, l: Expr, r: Expr, n: nat, k: bool)
    requires SmallMul(op, r)
    ensures Fresh(GenBin(op, l, r, n, k), n, {})
    decreases Size(l) + Size(r) + 1, 0
  {
    hide Fresh; hide GenE; hide MulCode; hide AllStraight;
    LabelsE(l, n, k);
    StraightMul(r.c);
    Tail(GenE(l, n, k), n, {}, MulCode(r.c));
  }

  lemma LabelsStacked(op: BinOp, l: Expr, r: Expr, n: nat, k: bool)
    requires !(Simple(op) && Late(r)) && !SmallMul(op, r)
    ensures Fresh(GenBin(op, l, r, n, k), n, {})
    decreases Size(l) + Size(r) + 1, 0
  {
    hide Fresh; hide GenE; hide TosOp; hide AllStraight;
    LabelsE(r, n, k);
    var g1 := GenE(r, n, k);
    LabelsE(l, g1.next, g1.control);
    StraightOp(op, r);
    StraightPush();
    Two(g1, GenE(l, g1.next, g1.control), [PshsD], TosOp(op), n);
  }

  lemma LabelsRInd(a: Expr, byte: bool, n: nat, k: bool)
    ensures Fresh(GenRInd(a, byte, n, k), n, {})
    decreases Size(a), 6
  {
    hide Fresh; hide GenE;
    var sx := Sextend(byte);
    assert AllStraight(sx);
    if a.RVar? { Leaf([LoadOp(byte, IndMode(a.v))] + sx, n, k); }
    else if a.Bin? && a.op.Add? {
      if a.l.Address? {
        LabelsE(a.r, n, k);
        Tail(GenE(a.r, n, k), n, {}, [Leax(VarMode(a.l.v)), LoadOp(byte, DX)] + sx);
      } else if a.r.RVar? {
        LabelsE(a.l, n, k);
        Tail(GenE(a.l, n, k), n, {}, [Ldx(VarMode(a.r.v)), LoadOp(byte, DX)] + sx);
      } else if a.r.Const? && a.l.RVar? {
        Leaf([Ldx(VarMode(a.l.v)), LoadOp(byte, OffX(a.r.c))] + sx, n, k);
      } else {
        LabelsE(a.l, n, k);
        var g1 := GenE(a.l, n, k);
        LabelsE(a.r, g1.next, g1.control);
        Two(g1, GenE(a.r, g1.next, g1.control), [PshsD], [PulsX, LoadOp(byte, DX)] + sx, n);
      }
    } else if Auto(a) {
      Leaf([Ldx(VarMode(a.lv.v)), LoadOp(byte, AutoMode(a)), Stx(VarMode(a.lv.v))] + sx, n, k);
    } else {
      LabelsE(a, n, k);
      Tail(GenE(a, n, k), n, {}, [TfrDX, LoadOp(byte, OffX(0))] + sx);
    }
  }

  lemma LabelsAssign(lv: LVal, e: Expr, byte: bool, n: nat, k: bool)
    ensures Fresh(GenAssign(lv, e, byte, n, k), n, {})
    decreases LSize(lv) + Size(e), 3
  {
    hide Fresh; hide GenE; hide GenL;
    LabelsE(e, n, k);
    if lv.Plain? {
      Tail(GenE(e, n, k), n, {}, [StoreOp(byte, VarMode(lv.v))]);
    } else if lv.e.RVar? {
      Tail(GenE(e, n, k), n, {}, [StoreOp(byte, IndMode(lv.e.v))]);
    } else if lv.e.Bin? && lv.e.op.Add? && lv.e.r.Const? && lv.e.l.RVar? {
      Tail(GenE(e, n, k), n, {}, [Ldx(VarMode(lv.e.l.v)), StoreOp(byte, OffX(lv.e.r.c))]);
    } else if Auto(lv.e) {
      Tail(GenE(e, n, k), n, {}, [Ldx(VarMode(lv.e.lv.v)), StoreOp(byte, AutoMode(lv.e)), Stx(VarMode(lv.e.lv.v))]);
    } else {
      LabelsThrough(lv, e, byte, n, k);
    }
  }

  /** Assignment through an address that is computed in X. */
  lemma LabelsThrough(lv: LVal, e: Expr, byte: bool, n: nat, k: bool)
    requires lv.Indirect? && !lv.e.RVar? && !(lv.e.Bin? && lv.e.op.Add? && lv.e.r.Const? && lv.e.l.RVar?) && !Auto(lv.e)
    ensures Fresh(GenAssign(lv, e, byte, n, k), n, {})
    decreases LSize(lv) + Size(e), 2
  {
    hide Fresh; hide GenE; hide GenL;
    if SimpleRhs(e) {
      LabelsL(lv, n, k);
      var g1 := GenL(lv, n, k);
      LabelsE(e, g1.next, g1.control);
      var g2 := GenE(e, g1.next, g1.control);
      Two(g1, g2, [], [StoreOp(byte, OffX(0))], n);
      assert [] + (g2.code + [StoreOp(byte, OffX(0))]) == g2.code + [StoreOp(byte, OffX(0))];
    } else {
      LabelsE(e, n, k);
      var g1 := GenE(e, n, k);
      LabelsL(lv, g1.next, g1.control);
      Two(g1, GenL(lv, g1.next, g1.control), [PshsD], [PulsD, StoreOp(byte, OffX(0))], n);
    }
  }

  lemma LabelsAssOp(lv: LVal, e: Expr, op: BinOp, byte: bool, n: nat, k: bool)
    ensures Fresh(GenAssOp(lv, e, op, byte, n, k), n, {})
    decreases LSize(lv) + Size(e), 3
  {
    hide Fresh; hide GenE; hide GenL; hide Oprt; hide TosOp;
    StraightOp(op, e);
    var sx := Sextend(byte);
    assert AllStraight(sx);
    if Late(e) && Simple(op) {
      if lv.Plain? {
        Leaf([LoadOp(byte, VarMode(lv.v))] + sx + Oprt(op, e) + [StoreOp(byte, VarMode(lv.v))], n, k);
      } else {
        LabelsL(lv, n, k);
        Tail(GenL(lv, n, k), n, {}, [LoadOp(byte, OffX(0))] + sx + Oprt(op, e) + [StoreOp(byte, OffX(0))]);
      }
    } else {
      LabelsE(e, n, k);
      var g1 := GenE(e, n, k);
      if lv.Plain? {
        Tail(g1, n, {}, [PshsD] + ([LoadOp(byte, VarMode(lv.v))] + sx + TosOp(op) + [StoreOp(byte, VarMode(lv.v))]));
      } else {
        LabelsL(lv, g1.next, g1.control);
        Two(g1, GenL(lv, g1.next, g1.control), [PshsD], [LoadOp(byte, OffX(0))] + sx + TosOp(op) + [StoreOp(byte, OffX(0))], n);
      }
    }
  }

  lemma LabelsCond(c: Expr, t: Expr, f: Expr, n: nat, k: bool)
    ensures Fresh(GenCond(c, t, f, n, k), n, {})
    decreases Size(c) + Size(t) + Size(f), 5
  {
    hide GenB; hide GenE; hide GenCond; hide Fresh;
    LabelsB(c, false, n, n + 1, k);
    var g1 := GenB(c, false, n, n + 1, k);
    LabelsE(t, g1.next, g1.control);
    var g2 := GenE(t, g1.next, g1.control);
    LabelsE(f, g2.next + 1, true);
    CondFresh(c, t, f, n, k);
  }

  lemma CondFresh(c: Expr, t: Expr, f: Expr, n: nat, k: bool)
    requires var g1 := GenB(c, false, n, n + 1, k);
             var g2 := GenE(t, g1.next, g1.control);
             Fresh(g1, n + 1, {n}) && Fresh(g2, g1.next, {}) && Fresh(GenE(f, g2.next + 1, true), g2.next + 1, {})
    ensures Fresh(GenCond(c, t, f, n, k), n, {})
  {
    hide GenB; hide GenE; hide Fresh;
    var g1 := GenB(c, false, n, n + 1, k);
    var g2 := GenE(t, g1.next, g1.control);
    CloseCond(g1, g2, GenE(f, g2.next + 1, true), n);
  }

  lemma CloseCond(g1: Gen, g2: Gen, g3: Gen, n: nat)
    requires Fresh(g1, n + 1, {n}) && Fresh(g2, g1.next, {}) && Fresh(g3, g2.next + 1, {})
    ensures Fresh(Gen(g1.code + (g2.code + ([Jmp(g2.next), Label(n)] + (g3.code + [Label(g2.next)]))), g3.next, true), n, {})
  {
    hide Defs;
    var l := g2.next;
    var c := g1.code + (g2.code + ([Jmp(l), Label(n)] + (g3.code + [Label(l)])));
    CondJumps(g1, g2, g3, n);
    forall x: nat ensures Defs(c, x) == if n <= x < g3.next then 1 else 0 {
      DefsOwn(l, n, x);
      DefsAppend(g1.code, g2.code + ([Jmp(l), Label(n)] + (g3.code + [Label(l)])), x);
      DefsAppend(g2.code, [Jmp(l), Label(n)] + (g3.code + [Label(l)]), x);
      DefsAppend([Jmp(l), Label(n)], g3.code + [Label(l)], x);
      DefsAppend(g3.code, [Label(l)], x);
    }
  }

  lemma DefsOwn(l: nat, n: nat, x: nat)
    ensures Defs([Jmp(l), Label(n)], x) == (if x == n then 1 else 0) && Defs([Label(l)], x) == (if x == l then 1 else 0)
  {}

  lemma CondJumps(g1: Gen, g2: Gen, g3: Gen, n: nat)
    requires Fresh(g1, n + 1, {n}) && Fresh(g2, g1.next, {}) && Fresh(g3, g2.next + 1, {})
    ensures JumpsWithin(g1.code + (g2.code + ([Jmp(g2.next), Label(n)] + (g3.code + [Label(g2.next)]))), n, g3.next, {})
  {
    hide DefinesOnce;
  }

  lemma LabelsB(e: Expr, cond: bool, l: nat, n: nat, k: bool)
    ensures Fresh(GenB(e, cond, l, n, k), n, {l})
    decreases Size(e), 4
  {
    hide DefinesOnce; hide JumpsWithin; hide GenE; hide GenBin;
    if SetsFlags(e) {
      LabelsE(e, n, k);
      TailJump(GenE(e, n, k), n, [], JCond(cond, l));
      assert [] + [JCond(cond, l)] == [JCond(cond, l)];
    } else if !IsBool(e) && !e.CRVar? && !e.Const? {
      LabelsE(e, n, k);
      TailJump(GenE(e, n, k), n, [Subd(Imm(0))], JCond(cond, l));
      assert [Subd(Imm(0))] + [JCond(cond, l)] == [Subd(Imm(0)), JCond(cond, l)];
    } else {
      match e
      case LNot(a) => LabelsB(a, !cond, l, n, k);
      case Cmp(op, a, b) =>
        LabelsBin(Sub, a, b, n, k);
        TailJump(GenBin(Sub, a, b, n, k), n, [], Branch(CmpBranch(op, cond), l));
        assert [] + [Branch(CmpBranch(op, cond), l)] == [Branch(CmpBranch(op, cond), l)];
      case LAnd(a, b) => LabelsLogic(a, b, cond, cond, l, n, k);
      case LOr(a, b) => LabelsLogic(a, b, !cond, cond, l, n, k);
      case CRVar(v) =>
        Leaf([], n, k);
        TailJump(Gen([], n, k), n, [Ldb(VarMode(v))], JCond(cond, l));
        assert [] + ([Ldb(VarMode(v))] + [JCond(cond, l)]) == [Ldb(VarMode(v)), JCond(cond, l)];
      case Const(c) =>
        Leaf([], n, k);
        TailJump(Gen([], n, k), n, [], Jmp(l));
        Leaf([], n, false);
        TailJump(Gen([], n, false), n, [], Jmp(l));
        assert [] + ([] + [Jmp(l)]) == [Jmp(l)];
        WeakerExt([], n, n, l);
    }
  }

  lemma WeakerExt(code: seq<Instr>, lo: nat, hi: nat, l: nat)
    requires JumpsWithin(code, lo, hi, {})
    ensures JumpsWithin(code, lo, hi, {l})
  {}

  lemma TailJump(g: Gen, n: nat, mid: seq<Instr>, j: Instr)
    requires Fresh(g, n, {}) && AllStraight(mid) && IsJump(j)
    ensures Fresh(g.Plus(mid + [j]), n, {j.l})
  {
    forall x: nat ensures Defs(g.code + (mid + [j]), x) == Defs(g.code, x) {
      DefsAppend(g.code, mid + [j], x);
      DefsAppend(mid, [j], x);
      StraightDefs(mid, 0);
    }
  }

  /** && and ||: `own` says that the first operand jumps to a label defined at the end. */
  lemma LabelsLogic(a: Expr, b: Expr, own: bool, cond: bool, l: nat, n: nat, k: bool)
    ensures var first := if own then !cond else cond;
            var g1 := if own then GenB(a, first, n, n + 1, k) else GenB(a, first, l, n, k);
            var g2 := GenB(b, cond, l, g1.next, g1.control);
            Fresh(if own then Gen(g1.code + (g2.code + [Label(n)]), g2.next, true)
                  else Gen(g1.code + g2.code, g2.next, g2.control), n, {l})
    decreases Size(a) + Size(b), 5
  {
    hide DefinesOnce; hide JumpsWithin; hide GenB;
    var first := if own then !cond else cond;
    if own {
      LabelsB(a, first, n, n + 1, k);
      var g1 := GenB(a, first, n, n + 1, k);
      LabelsB(b, cond, l, g1.next, g1.control);
      var g2 := GenB(b, cond, l, g1.next, g1.control);
      Two0(g1, g2, n + 1, {n}, {l});
      assert {n} + {l} == {l} + {n};
      assert (g1.code + g2.code) + [Label(n)] == g1.code + (g2.code + [Label(n)]);
      Close(g1.code + g2.code, n, g2.next, {l}, [Label(n)]);
    } else {
      LabelsB(a, first, l, n, k);
      var g1 := GenB(a, first, l, n, k);
      LabelsB(b, cond, l, g1.next, g1.control);
      Two0(g1, GenB(b, cond, l, g1.next, g1.control), n, {l}, {l});
      assert {l} + {l} == {l};
    }
  }
}
