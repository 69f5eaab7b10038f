/**
  The code generator as the compiler runs it: instructions are printed one after the other
  while the label counter, the `control` flag and the labels of the enclosing statements
  change.  Every method writes exactly what the functions of CodeGen and Statements say.
 */
module Compiler {
  import opened Machine
  import opened Source
  import opened CodeGen
  import opened Statements
  import opened Function
  import opened Sequences

  class Output {
    var code: seq<Instr>
    var labelno: nat
    var control: bool
    var blabel: nat
    var clabel: nat
    var dlabel: nat
    var cslabel: nat
    const lvar: nat

    constructor (lvar: nat)
      ensures code == [] && labelno == 2 && control && blabel == clabel == 0 && this.lvar == lvar
    {
      code, labelno, control := [], 2, true;
      blabel, clabel, dlabel, cslabel := 0, 0, 0, 0;
      this.lvar := lvar;
    }

    /** The text of g is new, and the counter and the flag are where g leaves them. */
    twostate predicate Wrote(g: Gen)
      reads this
    {
      code == old(code) + g.code && labelno == g.next && control == g.control
    }

    method Print(more: seq<Instr>)
      modifies this`code
      ensures code == old(code) + more
    {
      code := code + more;
    }

    method FwdLabel() returns (l: nat)
      modifies this`labelno
      ensures l == old(labelno) && labelno == l + 1
    {
      l := labelno;
      labelno := labelno + 1;
    }

    method FwdDef(l: nat)
      modifies this`code, this`control
      ensures code == old(code) + [Label(l)] && control
    {
      control := true;
      Print([Label(l)]);
    }

    method BackDef() returns (l: nat)
      modifies this`code, this`control, this`labelno
      ensures l == old(labelno) && labelno == l + 1 && code == old(code) + [Label(l)] && control
    {
      control := true;
      l := labelno;
      Print([Label(l)]);
      labelno := labelno + 1;
    }

    method Jump(l: nat)
      modifies this`code, this`control
      ensures code == old(code) + [Jmp(l)] && !control
    {
      control := false;
      Print([Jmp(l)]);
    }

    // ---------- expressions ----------

    /** A value and then a few instructions. */
    method Then(e: Expr, more: seq<Instr>)
      modifies this`code, this`labelno, this`control
      ensures Wrote(GenE(e, old(labelno), old(control)).Plus(more))
      decreases Size(e), if IsBool(e) then 7 else 2
    {
      hide GenE;
      Gexpr(e);
      Print(more);
    }

    method Gexpr(e: Expr)
      modifies this`code, this`labelno, this`control
      ensures Wrote(GenE(e, old(labelno), old(control)))
      decreases Size(e), if IsBool(e) then 6 else 1
    {
      hide GenB; hide GenRInd; hide GenBin; hide GenAssign; hide GenAssOp; hide GenInc; hide GenL;
      if IsBool(e) { Truth(e); return; }
      match e
      case RVar(_) => Leaf(e);
      case CRVar(_) => Leaf(e);
      case Const(_) => Leaf(e);
      case Address(_) => Leaf(e);
      case RInd(a, byte) => Rindirect(a, byte);
      case Minus(a) => Then(a, [Nega, Negb, Sbca(0)]);
      case BNot(a) => Then(a, [Coma, Comb]);
      case PreInc(lv, i) => Increment(lv, i);
      case PostInc(lv, i) => Increment(lv, i); Print([Subd(Imm(i))]);
      case CStep(lv, up, post) => ByteStep(lv, up, post);
      case Bin(op, l, r) => Binary(op, l, r);
      case CondE(c, t, f) => Conditional(c, t, f);
      case Assign(lv, a, byte) => Store(lv, a, byte);
      case AssOp(lv, a, op, byte) => Assop(lv, a, op, byte);
      case Comma(l, r) => Both(l, r);
      case CommaL(lv, r) => BothL(lv, r);
    }

    method Leaf(e: Expr)
      requires e.RVar? || e.CRVar? || e.Const? || e.Address?
      modifies this`code, this`labelno, this`control
      ensures Wrote(GenE(e, old(labelno), old(control)))
    {
      hide VarMode;
      if e.RVar? { Print([Ldd(VarMode(e.v))]); }
      else if e.CRVar? { Print([Ldb(VarMode(e.v)), Sex]); }
      else if e.Const? { Print(if e.c != 0 then [Ldd(Imm(e.c))] else [Clra, Clrb]); }
      else { Print([Leax(VarMode(e.v)), TfrXD]); }
    }

    method ByteStep(lv: LVal, up: bool, post: bool)
      modifies this`code, this`labelno, this`control
      ensures var step := if up then Inc(OffX(0)) else Dec(OffX(0));
              Wrote(GenL(lv, old(labelno), old(control)).Plus(if post then [Ldb(OffX(0)), step, Sex] else [step, Ldb(OffX(0)), Sex]))
      decreases LSize(lv), 1
    {
      hide GenL;
      Lexpr(lv);
      var step := if up then Inc(OffX(0)) else Dec(OffX(0));
      Print(if post then [Ldb(OffX(0)), step, Sex] else [step, Ldb(OffX(0)), Sex]);
    }

    method Both(l: Expr, r: Expr)
      modifies this`code, this`labelno, this`control
      ensures var g1 := GenE(l, old(labelno), old(control));
              var g2 := GenE(r, g1.next, g1.control);
              Wrote(Gen(g1.code + g2.code, g2.next, g2.control))
      decreases Size(l) + Size(r), 8
    {
      hide GenE; hide Size;
      ghost var before := code;
      Gexpr(l);
      ghost var g1 := GenE(l, old(labelno), old(control));
      Gexpr(r);
      Assoc(before, g1.code, GenE(r, g1.next, g1.control).code);
    }

    method BothL(lv: LVal, r: Expr)
      modifies this`code, this`labelno, this`control
      ensures var g1 := GenL(lv, old(labelno), old(control));
              var g2 := GenE(r, g1.next, g1.control);
              Wrote(Gen(g1.code + g2.code, g2.next, g2.control))
      decreases LSize(lv) + Size(r), 8
    {
      hide GenE; hide GenL; hide Size; hide LSize;
      ghost var before := code;
      Lexpr(lv);
      ghost var g1 := GenL(lv, old(labelno), old(control));
      Gexpr(r);
      Assoc(before, g1.code, GenE(r, g1.next, g1.control).code);
    }

    /** A condition used as a value: 0 or 1. */
    method Truth(e: Expr)
      requires IsBool(e)
      modifies this`code, this`labelno, this`control
      ensures Wrote(GenE(e, old(labelno), old(control)))
      decreases Size(e), 5
    {
      hide GenB;
      ghost var before := code;
      var l := FwdLabel();
      Bexpr(e, true, l);
      ghost var c1 := GenB(e, true, l, l + 1, old(control)).code;
      Print([Clra, Clrb, SkipBytes(3)]);
      FwdDef(l);
      Print([Ldd(Imm(1))]);
      Assoc(before, c1, [Clra, Clrb, SkipBytes(3)]);
      Assoc(before, c1 + [Clra, Clrb, SkipBytes(3)], [Label(l)]);
      Assoc(before, c1 + [Clra, Clrb, SkipBytes(3)] + [Label(l)], [Ldd(Imm(1))]);
      assert c1 + [Clra, Clrb, SkipBytes(3)] + [Label(l)] + [Ldd(Imm(1))] == c1 + [Clra, Clrb, SkipBytes(3), Label(l), Ldd(Imm(1))];
    }

    method Conditional(c: Expr, t: Expr, f: Expr)
      modifies this`code, this`labelno, this`control
      ensures Wrote(GenCond(c, t, f, old(labelno), old(control)))
      decreases Size(c) + Size(t) + Size(f), 7
    {
      hide GenB; hide GenE; hide GenCond; hide Size;
      ghost var before := code;
      var l := FwdLabel();
      Bexpr(c, false, l);
      ghost var g1 := GenB(c, false, l, l + 1, old(control));
      Gexpr(t);
      ghost var g2 := GenE(t, g1.next, g1.control);
      var m := FwdLabel();
      Jump(m);
      FwdDef(l);
      Gexpr(f);
      ghost var g3 := GenE(f, m + 1, true);
      FwdDef(m);
      CondPieces(before, g1.code, g2.code, Jmp(m), Label(l), g3.code, Label(m));
      CondParts(c, t, f, l, old(control));
    }

    /** The address of an lvalue in X. */
    method Lexpr(lv: LVal)
      modifies this`code, this`labelno, this`control
      ensures Wrote(GenL(lv, old(labelno), old(control)))
      decreases LSize(lv), 0
    {
      hide GenAddr;
      match lv
      case Plain(v) => Print([Leax(VarMode(v))]);
      case Indirect(e) => IndirectAddress(e);
    }

    method IndirectAddress(e: Expr)
      modifies this`code, this`labelno, this`control
      ensures Wrote(GenAddr(e, old(labelno), old(control)))
      decreases Size(e), 8
    {
      hide GenE;
      if e.RVar? { Print([Ldx(VarMode(e.v))]); }
      else if e.Bin? && e.op.Add? && e.l.Address? { Then(e.r, [Leax(VarMode(e.l.v)), Leax(DX)]); }
      else if e.Bin? && e.op.Add? && e.r.RVar? { Then(e.l, [Ldx(VarMode(e.r.v)), Leax(DX)]); }
      else { Then(e, [TfrDX]); }
    }

    method Increment(lv: LVal, i: int)
      modifies this`code, this`labelno, this`control
      ensures Wrote(GenInc(lv, i, old(labelno), old(control)))
      decreases LSize(lv), 1
    {
      hide GenL;
      if lv.Plain? {
        Print([Ldd(VarMode(lv.v)), Addd(Imm(i)), Std(VarMode(lv.v))]);
      } else {
        Lexpr(lv);
        Print([Ldd(OffX(0)), Addd(Imm(i)), Std(OffX(0))]);
      }
    }

    /** machinop, binexpr and the multiplications by small constants. */
    method Binary(op: BinOp, l: Expr, r: Expr)
      modifies this`code, this`labelno, this`control
      ensures Wrote(GenBin(op, l, r, old(labelno), old(control)))
      decreases Size(l) + Size(r) + 1, 0
    {
      hide GenE; hide MulCode; hide TosOp; hide Oprt;
      if Simple(op) && Late(r) { Then(l, Oprt(op, r)); }
      else if SmallMul(op, r) { Then(l, MulCode(r.c)); }
      else { Pushed(r, l, TosOp(op)); }
    }

    /** Two values, the first one pushed, and then a few instructions. */
    method Pushed(e1: Expr, e2: Expr, more: seq<Instr>)
      modifies this`code, this`labelno, this`control
      ensures var g1 := GenE(e1, old(labelno), old(control));
              var g2 := GenE(e2, g1.next, g1.control);
              Wrote(Gen(g1.code + ([PshsD] + (g2.code + more)), g2.next, g2.control))
      decreases Size(e1) + Size(e2), 8
    {
      hide GenE; hide Size;
      ghost var before := code;
      Gexpr(e1);
      ghost var g1 := GenE(e1, old(labelno), old(control));
      Print([PshsD]);
      Gexpr(e2);
      ghost var g2 := GenE(e2, g1.next, g1.control);
      Print(more);
      Five(before, g1.code, [PshsD], g2.code, more);
    }

    /** A value, pushed, and then an address. */
    method PushedAddress(e: Expr, lv: LVal, more: seq<Instr>)
      modifies this`code, this`labelno, this`control
      ensures var g1 := GenE(e, old(labelno), old(control));
              var g2 := GenL(lv, g1.next, g1.control);
              Wrote(Gen(g1.code + ([PshsD] + (g2.code + more)), g2.next, g2.control))
      decreases Size(e) + LSize(lv), 8
    {
      hide GenE; hide GenL; hide Size; hide LSize;
      ghost var before := code;
      Gexpr(e);
      ghost var g1 := GenE(e, old(labelno), old(control));
      Print([PshsD]);
      Lexpr(lv);
      ghost var g2 := GenL(lv, g1.next, g1.control);
      Print(more);
      Five(before, g1.code, [PshsD], g2.code, more);
    }

    method Rindirect(a: Expr, byte: bool)
      modifies this`code, this`labelno, this`control
      ensures Wrote(GenRInd(a, byte, old(labelno), old(control)))
      decreases Size(a), 9
    {
      hide GenE; hide VarMode; hide IndMode; hide AutoMode;
      var s := Sextend(byte);
      if a.RVar? {
        Print([LoadOp(byte, IndMode(a.v))] + s);
      } else if a.Bin? && a.op.Add? {
        if a.l.Address? { Then(a.r, [Leax(VarMode(a.l.v)), LoadOp(byte, DX)] + s); }
        else if a.r.RVar? { Then(a.l, [Ldx(VarMode(a.r.v)), LoadOp(byte, DX)] + s); }
        else if a.r.Const? && a.l.RVar? { Print([Ldx(VarMode(a.l.v)), LoadOp(byte, OffX(a.r.c))] + s); }
        else { Pushed(a.l, a.r, [PulsX, LoadOp(byte, DX)] + s); }
      } else if Auto(a) {
        Print([Ldx(VarMode(a.lv.v)), LoadOp(byte, AutoMode(a)), Stx(VarMode(a.lv.v))] + s);
      } else {
        Then(a, [TfrDX, LoadOp(byte, OffX(0))] + s);
      }
    }

    method Store(lv: LVal, e: Expr, byte: bool)
      modifies this`code, this`labelno, this`control
      ensures Wrote(GenAssign(lv, e, byte, old(labelno), old(control)))
      decreases LSize(lv) + Size(e), 9
    {
      hide GenE; hide GenL; hide VarMode; hide IndMode; hide AutoMode;
      if lv.Plain? { Then(e, [StoreOp(byte, VarMode(lv.v))]); }
      else if lv.e.RVar? { Then(e, [StoreOp(byte, IndMode(lv.e.v))]); }
      else if lv.e.Bin? && lv.e.op.Add? && lv.e.r.Const? && lv.e.l.RVar? {
        Then(e, [Ldx(VarMode(lv.e.l.v)), StoreOp(byte, OffX(lv.e.r.c))]);
      } else if Auto(lv.e) {
        Then(e, [Ldx(VarMode(lv.e.lv.v)), StoreOp(byte, AutoMode(lv.e)), Stx(VarMode(lv.e.lv.v))]);
      } else if SimpleRhs(e) {
        ghost var before := code;
        Lexpr(lv);
        ghost var g1 := GenL(lv, old(labelno), old(control));
        Gexpr(e);
        Print([StoreOp(byte, OffX(0))]);
        ghost var g2 := GenE(e, g1.next, g1.control);
        Assoc(before + g1.code, g2.code, [StoreOp(byte, OffX(0))]);
        Assoc(before, g1.code, g2.code + [StoreOp(byte, OffX(0))]);
      } else {
        PushedAddress(e, lv, [PulsD, StoreOp(byte, OffX(0))]);
      }
    }

    method Assop(lv: LVal, e: Expr, op: BinOp, byte: bool)
      modifies this`code, this`labelno, this`control
      ensures Wrote(GenAssOp(lv, e, op, byte, old(labelno), old(control)))
      decreases LSize(lv) + Size(e), 9
    {
      hide GenE; hide GenL; hide VarMode; hide Oprt; hide TosOp;
      var s := Sextend(byte);
      if Late(e) && Simple(op) {
        if lv.Plain? {
          Print([LoadOp(byte, VarMode(lv.v))] + s + Oprt(op, e) + [StoreOp(byte, VarMode(lv.v))]);
        } else {
          Lexpr(lv);
          Print([LoadOp(byte, OffX(0))] + s + Oprt(op, e) + [StoreOp(byte, OffX(0))]);
        }
      } else if lv.Plain? {
        Then(e, [PshsD] + ([LoadOp(byte, VarMode(lv.v))] + s + TosOp(op) + [StoreOp(byte, VarMode(lv.v))]));
      } else {
        PushedAddress(e, lv, [LoadOp(byte, OffX(0))] + s + TosOp(op) + [StoreOp(byte, OffX(0))]);
      }
    }

    // ---------- conditions ----------

    method Bexpr(e: Expr, cond: bool, l: nat)
      modifies this`code, this`labelno, this`control
      ensures Wrote(GenB(e, cond, l, old(labelno), old(control)))
      decreases Size(e), 4
    {
      hide GenE; hide GenBin; hide CmpBranch; hide JCond;
      if e.LNot? { Bexpr(e.e, !cond, l); }
      else if e.Cmp? { Binary(Sub, e.l, e.r); Print([Branch(CmpBranch(e.cmp, cond), l)]); }
      else if e.LAnd? { Logic(e.l, e.r, false, cond, cond, l); }
      else if e.LOr? { Logic(e.l, e.r, true, !cond, cond, l); }
      else if e.CRVar? { Print([Ldb(VarMode(e.v)), JCond(cond, l)]); }
      else if e.Const? { if cond == (e.c != 0) { Jump(l); } }
      else { Compare(e, cond, l); }
    }

    /** gexpr and a test of D, which some values have made already. */
    method Compare(e: Expr, cond: bool, l: nat)
      requires !IsBool(e) && !e.CRVar? && !e.Const?
      modifies this`code, this`labelno, this`control
      ensures Wrote(GenB(e, cond, l, old(labelno), old(control)))
      decreases Size(e), 3
    {
      hide GenE; hide JCond;
      Then(e, if SetsFlags(e) then [JCond(cond, l)] else [Subd(Imm(0)), JCond(cond, l)]);
    }

    /** && and ||: the first operand jumps to a label of its own or to l. */
    method Logic(a: Expr, b: Expr, first: bool, own: bool, cond: bool, l: nat)
      modifies this`code, this`labelno, this`control
      ensures var n, k := old(labelno), old(control);
              var g1 := if own then GenB(a, first, n, n + 1, k) else GenB(a, first, l, n, k);
              var g2 := GenB(b, cond, l, g1.next, g1.control);
              Wrote(if own then Gen(g1.code + (g2.code + [Label(n)]), g2.next, true) else Gen(g1.code + g2.code, g2.next, g2.control))
      decreases Size(a) + Size(b), 4
    {
      hide GenB;
      ghost var before := code;
      var l2 := l;
      if own { l2 := FwdLabel(); }
      Bexpr(a, first, l2);
      ghost var c1 := code[|before|..];
      ghost var g1 := if own then GenB(a, first, l2, l2 + 1, old(control)) else GenB(a, first, l, old(labelno), old(control));
      Bexpr(b, cond, l);
      ghost var g2 := GenB(b, cond, l, g1.next, g1.control);
      Assoc(before, g1.code, g2.code);
      if own {
        FwdDef(l2);
        Assoc(before, g1.code + g2.code, [Label(l2)]);
        Assoc(g1.code, g2.code, [Label(l2)]);
      }
    }

    // ---------- statements ----------

    ghost function Here(): Env
      reads this
    {
      Env(blabel, clabel, lvar)
    }

    /** The labels of the enclosing statements are what they were. */
    twostate predicate Restored()
      reads this
    {
      blabel == old(blabel) && clabel == old(clabel) && dlabel == old(dlabel) && cslabel == old(cslabel)
    }

    method Statement(s: Stmt)
      requires SoundS(s)
      modifies this
      ensures Wrote(GenS(s, old(Here()), old(labelno), old(control))) && Restored()
      decreases StmtSize(s), 1
    {
      hide GenE; hide GenB; hide GenClauses; hide Sound; hide SoundCond; hide SoundOpt; hide Epilogue; hide GenOpt;
      match s
      case Skip =>
      case ExprS(e) => Gexpr(e);
      case Seq(s1, s2) => Compound(s1, s2);
      case If(c, s1) => DoIf(c, s1);
      case IfElse(c, s1, s2) => DoIfElse(c, s1, s2);
      case While(c, s1) => WhileLoop(c, s1);
      case WhileNull(c) => DoWhileNull(c);
      case DoWhile(s1, c) => DoDo(s1, c);
      case For(init, cond, step, s1) => DoFor(init, cond, step, s1);
      case Switch(e, cs) => DoSwitch(e, cs);
      case Break => Jump(blabel);
      case Continue => Jump(clabel);
      case Return(r) => DoReturn(r);
    }

    method Compound(s1: Stmt, s2: Stmt)
      requires SoundS(s1) && SoundS(s2)
      modifies this
      ensures Wrote(GenS(Seq(s1, s2), old(Here()), old(labelno), old(control))) && Restored()
      decreases StmtSize(s1) + StmtSize(s2), 2
    {
      SeqIs(s1, s2, Here(), labelno, control);
      hide GenS; hide SoundS; hide StmtSize;
      ghost var before, env := code, Here();
      Statement(s1);
      ghost var g1 := GenS(s1, env, old(labelno), old(control));
      Statement(s2);
      Assoc(before, g1.code, GenS(s2, env, g1.next, g1.control).code);
    }

    method DoIf(c: Expr, s1: Stmt)
      requires SoundS(s1)
      modifies this
      ensures Wrote(GenS(If(c, s1), old(Here()), old(labelno), old(control))) && Restored()
      decreases StmtSize(s1), 2
    {
      IfIs(c, s1, Here(), labelno, control);
      hide GenS; hide GenB; hide SoundS; hide StmtSize;
      ghost var before, env := code, Here();
      var l1 := FwdLabel();
      Bexpr(c, false, l1);
      ghost var g1 := GenB(c, false, l1, l1 + 1, old(control));
      Statement(s1);
      ghost var g2 := GenS(s1, env, g1.next, g1.control);
      FwdDef(l1);
      Three(before, g1.code, g2.code, [Label(l1)]);
    }

    method DoIfElse(c: Expr, s1: Stmt, s2: Stmt)
      requires SoundS(s1) && SoundS(s2)
      modifies this
      ensures Wrote(GenS(IfElse(c, s1, s2), old(Here()), old(labelno), old(control))) && Restored()
      decreases StmtSize(s1) + StmtSize(s2), 2
    {
      IfElseIs(c, s1, s2, Here(), labelno, control);
      hide GenS; hide GenB; hide SoundS; hide StmtSize;
      ghost var before, env := code, Here();
      var l1 := FwdLabel();
      Bexpr(c, false, l1);
      ghost var g1 := GenB(c, false, l1, l1 + 1, old(control));
      Statement(s1);
      ghost var g2 := GenS(s1, env, g1.next, g1.control);
      if control {
        var l2 := FwdLabel();
        Jump(l2);
        FwdDef(l1);
        Statement(s2);
        ghost var g3 := GenS(s2, env, l2 + 1, true);
        FwdDef(l2);
        CondPieces(before, g1.code, g2.code, Jmp(l2), Label(l1), g3.code, Label(l2));
      } else {
        FwdDef(l1);
        Statement(s2);
        ghost var g3 := GenS(s2, env, g2.next, true);
        Five(before, g1.code, g2.code, [Label(l1)], g3.code);
      }
    }

    method WhileLoop(c: Expr, s1: Stmt)
      requires SoundS(s1)
      modifies this
      ensures Wrote(GenS(While(c, s1), old(Here()), old(labelno), old(control))) && Restored()
      decreases StmtSize(s1), 2
    {
      WhileIs(c, s1, Here(), labelno, control);
      hide GenS; hide GenB; hide SoundS; hide StmtSize;
      ghost var before := code;
      var sbreak, scontinue := blabel, clabel;
      blabel := FwdLabel();
      clabel := BackDef();
      Bexpr(c, false, blabel);
      ghost var g1 := GenB(c, false, blabel, blabel + 2, true);
      ghost var env := Here();
      Statement(s1);
      ghost var g2 := GenS(s1, env, g1.next, g1.control);
      Jump(clabel);
      FwdDef(blabel);
      LoopPieces(before, [Label(clabel)], g1.code, g2.code, Jmp(clabel), Label(blabel));
      clabel, blabel := scontinue, sbreak;
    }

    method DoWhileNull(c: Expr)
      modifies this
      ensures Wrote(GenS(WhileNull(c), old(Here()), old(labelno), old(control))) && Restored()
    {
      hide GenB;
      ghost var before := code;
      var sbreak, scontinue := blabel, clabel;
      blabel := FwdLabel();
      clabel := BackDef();
      Bexpr(c, true, clabel);
      ghost var g1 := GenB(c, true, clabel, clabel + 1, true);
      FwdDef(blabel);
      Three(before, [Label(clabel)], g1.code, [Label(blabel)]);
      clabel, blabel := scontinue, sbreak;
    }

    method DoDo(s1: Stmt, c: Expr)
      requires SoundS(s1)
      modifies this
      ensures Wrote(GenS(DoWhile(s1, c), old(Here()), old(labelno), old(control))) && Restored()
      decreases StmtSize(s1), 2
    {
      DoIs(s1, c, Here(), labelno, control);
      hide GenS; hide GenB; hide SoundS; hide StmtSize;
      ghost var before := code;
      var sbreak, scontinue := blabel, clabel;
      blabel := FwdLabel();
      clabel := FwdLabel();
      var l := BackDef();
      ghost var env := Here();
      Statement(s1);
      ghost var g1 := GenS(s1, env, l + 1, true);
      FwdDef(clabel);
      Bexpr(c, true, l);
      ghost var g2 := GenB(c, true, l, g1.next, true);
      FwdDef(blabel);
      Six(before, [Label(l)], g1.code, [Label(clabel)], g2.code, [Label(blabel)]);
      clabel, blabel := scontinue, sbreak;
    }

    /** An optional expression. */
    method Optional(o: Opt)
      modifies this`code, this`labelno, this`control
      ensures Wrote(GenOpt(o, old(labelno), old(control)))
    {
      hide GenE;
      if o.Some? { Gexpr(o.e); }
    }

    method DoFor(init: Opt, cond: Opt, step: Opt, s1: Stmt)
      requires SoundS(s1)
      modifies this
      ensures Wrote(GenS(For(init, cond, step, s1), old(Here()), old(labelno), old(control))) && Restored()
      decreases StmtSize(s1), 4
    {
      ForIs(init, cond, step, s1, Here(), labelno, control);
      hide GenS; hide GenB; hide GenE; hide GenOpt; hide SoundS; hide StmtSize;
      ghost var before, env := code, Here();
      var sbreak, scontinue := blabel, clabel;
      blabel := FwdLabel();
      Optional(init);
      ghost var g0 := GenOpt(init, blabel + 1, old(control));
      ghost var middle := code;
      ForRest(cond, step, s1, env);
      Assoc(before, g0.code, ForTail(cond, step, s1, env, blabel, g0.next).code);
      clabel, blabel := scontinue, sbreak;
    }

    /** From the head label of a for loop to its end. */
    method ForRest(cond: Opt, step: Opt, s1: Stmt, ghost env: Env)
      requires SoundS(s1) && env.locals == lvar
      modifies this
      ensures Wrote(ForTail(cond, step, s1, env, old(blabel), old(labelno)))
      ensures blabel == old(blabel) && dlabel == old(dlabel) && cslabel == old(cslabel)
      decreases StmtSize(s1), 3
    {
      hide ForBack; hide GenB; hide SoundS; hide StmtSize;
      ghost var before := code;
      var l := BackDef();
      if cond.Some? { Bexpr(cond.e, false, blabel); }
      ghost var g1 := if cond.Some? then GenB(cond.e, false, blabel, l + 1, true) else Gen([], l + 1, true);
      assert code == before + [Label(l)] + g1.code;
      ForBody(step, s1, l, env);
      Three(before, [Label(l)], g1.code, ForBack(step, s1, env, blabel, l, g1.next, g1.control).code);
    }

    /** The body, the step and the jump back. */
    method ForBody(step: Opt, s1: Stmt, l: nat, ghost env: Env)
      requires SoundS(s1) && env.locals == lvar
      modifies this
      ensures Wrote(ForBack(step, s1, env, old(blabel), l, old(labelno), old(control)))
      ensures blabel == old(blabel) && dlabel == old(dlabel) && cslabel == old(cslabel)
      decreases StmtSize(s1), 2
    {
      hide GenS; hide GenE; hide SoundS; hide StmtSize;
      ghost var before := code;
      if step.None? {
        clabel := l;
        ghost var inner := Here();
        Statement(s1);
        ghost var g2 := GenS(s1, inner, old(labelno), old(control));
        Jump(l);
        FwdDef(blabel);
        LoopPieces(before, [], [], g2.code, Jmp(l), Label(blabel));
        assert before + [] + [] == before && [] + ([] + (g2.code + [Jmp(l), Label(blabel)])) == g2.code + [Jmp(l), Label(blabel)];
      } else {
        clabel := FwdLabel();
        ghost var inner := Here();
        Statement(s1);
        ghost var g2 := GenS(s1, inner, clabel + 1, old(control));
        FwdDef(clabel);
        Gexpr(step.e);
        ghost var g3 := GenE(step.e, g2.next, true);
        Jump(l);
        FwdDef(blabel);
        LoopPieces(before, g2.code, [Label(clabel)], g3.code, Jmp(l), Label(blabel));
      }
    }

    method DoReturn(r: Opt)
      modifies this`code, this`labelno, this`control
      ensures Wrote(GenS(Return(r), old(Here()), old(labelno), old(control)))
    {
      hide GenOpt; hide Epilogue;
      ghost var before := code;
      Optional(r);
      ghost var g := GenOpt(r, old(labelno), old(control));
      control := false;
      Print(Epilogue(lvar, r.Some?));
      Assoc(before, g.code, Epilogue(lvar, r.Some?));
    }

    // ---------- switch ----------

    method DoSwitch(e: Expr, cs: Clauses)
      requires SoundClauses(cs)
      modifies this
      ensures Wrote(GenS(Switch(e, cs), old(Here()), old(labelno), old(control))) && Restored()
      decreases ClausesSize(cs), 2
    {
      SwitchIs(e, cs, Here(), labelno, control);
      hide GenS; hide GenE; hide GenClauses; hide SoundClauses;
      ghost var before := code;
      var sbreak, sdefault, scase := blabel, dlabel, cslabel;
      blabel := FwdLabel();
      dlabel := 0;
      Gexpr(e);
      ghost var g1 := GenE(e, blabel + 1, old(control));
      cslabel, control := 0, false;
      ghost var env := Here();
      Body(cs);
      ghost var gc := GenClauses(cs, env, 0, 0, g1.next, false);
      ghost var last := if gc.dl != 0 then Equ(gc.csl, gc.dl) else Label(gc.csl);
      if dlabel != 0 { Print([Equ(cslabel, dlabel)]); } else { FwdDef(cslabel); }
      cslabel, dlabel := scase, sdefault;
      FwdDef(blabel);
      SwitchPieces(before, g1.code, gc.g.code, last, Label(blabel));
      blabel := sbreak;
    }

    /** The clauses of a switch. */
    method Body(cs: Clauses)
      requires SoundClauses(cs)
      modifies this
      ensures var gc := GenClauses(cs, old(Here()), old(cslabel), old(dlabel), old(labelno), old(control));
              Wrote(gc.g) && cslabel == gc.csl && dlabel == gc.dl
      ensures blabel == old(blabel) && clabel == old(clabel)
      decreases ClausesSize(cs), 1
    {
      hide GenS; hide SoundS; hide CaseCode;
      ghost var before, env := code, Here();
      match cs
      case End =>
      case Case(ks, body, next) =>
        CaseClause(ks, body, next);
      case Default(body, next) =>
        DefaultClause(body, next);
    }

    method CaseClause(ks: seq<int>, body: Stmt, next: Clauses)
      requires |ks| > 0 && SoundS(body) && SoundClauses(next)
      modifies this
      ensures var gc := GenClauses(Case(ks, body, next), old(Here()), old(cslabel), old(dlabel), old(labelno), old(control));
              Wrote(gc.g) && cslabel == gc.csl && dlabel == gc.dl
      ensures blabel == old(blabel) && clabel == old(clabel)
      decreases StmtSize(body) + ClausesSize(next), 2
    {
      CaseIs(ks, body, next, Here(), cslabel, dlabel, labelno, control);
      hide GenS; hide SoundS; hide CaseCode; hide GenClauses; hide SoundClauses; hide StmtSize; hide ClausesSize; hide CaseTests;
      ghost var before, env := code, Here();
      DoCase(ks);
      Statement(body);
      ghost var g1 := GenS(body, env, old(labelno) + 2, true);
      Body(next);
      ghost var gc := GenClauses(next, env, old(labelno) + 1, old(dlabel), g1.next, g1.control);
      Three(before, CaseCode(ks, old(cslabel), old(labelno), old(control)), g1.code, gc.g.code);
    }

    method DefaultClause(body: Stmt, next: Clauses)
      requires SoundS(body) && SoundClauses(next)
      modifies this
      ensures var gc := GenClauses(Default(body, next), old(Here()), old(cslabel), old(dlabel), old(labelno), old(control));
              Wrote(gc.g) && cslabel == gc.csl && dlabel == gc.dl
      ensures blabel == old(blabel) && clabel == old(clabel)
      decreases StmtSize(body) + ClausesSize(next), 2
    {
      DefaultIs(body, next, Here(), cslabel, dlabel, labelno, control);
      hide GenS; hide SoundS; hide GenClauses; hide SoundClauses; hide StmtSize; hide ClausesSize;
      ghost var before, env := code, Here();
      ghost var first := if cslabel == 0 then [Jmp(labelno)] else [];
      if cslabel == 0 {
        cslabel := FwdLabel();
        Jump(cslabel);
      }
      assert code == before + first;
      ghost var csl := cslabel;
      dlabel := BackDef();
      ghost var d := dlabel;
      Statement(body);
      ghost var g1 := GenS(body, env, d + 1, true);
      Body(next);
      ghost var gc := GenClauses(next, env, csl, d, g1.next, g1.control);
      Five(before, first, [Label(d)], g1.code, gc.g.code);
    }

    /** docase: the byte count n chooses between short and long branches. */
    method DoCase(ks: seq<int>)
      requires |ks| > 0
      modifies this`code, this`labelno, this`control, this`cslabel
      ensures code == old(code) + CaseCode(ks, old(cslabel), old(labelno), old(control))
      ensures labelno == old(labelno) + 2 && control && cslabel == old(labelno) + 1
    {
      hide CaseTests;
      ghost var before := code;
      ghost var c1 := if control then [CaseJump(labelno, 2 + 6 * |ks|)] else [];
      ghost var c2 := if cslabel != 0 then [Label(cslabel)] else [];
      var n := 2 + 6 * |ks|;
      var l := FwdLabel();
      if control {
        control := false;
        if n > 127 { Jump(l); } else { Print([ShortJmp(l)]); }
      }
      if cslabel != 0 { FwdDef(cslabel); }
      assert code == before + c1 + c2;
      Tests(ks, l, n);
      FwdDef(l);
      ghost var t := CaseTests(ks, l, l + 1, n);
      Assoc(before + c1 + c2, t, [Label(l)]);
      Assoc(before + c1, c2, t + [Label(l)]);
      Assoc(before, c1, c2 + (t + [Label(l)]));
    }

    /** The comparisons of a group, the last constant first. */
    method Tests(ks: seq<int>, l: nat, n0: int)
      requires |ks| > 0 && l + 1 == labelno
      modifies this`code, this`labelno, this`cslabel
      ensures code == old(code) + CaseTests(ks, l, l + 1, n0) && labelno == l + 2 && cslabel == l + 1
    {
      ghost var before := code;
      var c, n := ks, n0;
      ghost var done: seq<Instr> := [];
      assert before + [] == before && [] + CaseTests(ks, l, l + 1, n0) == CaseTests(ks, l, l + 1, n0);
      while |c| > 1
        invariant |c| > 0 && code == before + done && done + CaseTests(c, l, l + 1, n) == CaseTests(ks, l, l + 1, n0)
        invariant labelno == l + 1
      {
        ghost var c0, n1, d := c, n, done;
        n := n - 6;
        var k := c[|c| - 1];
        var i := if n > 127 then Branch(EQ, l) else ShortEq(l);
        TestsFirst(c0, l, l + 1, n1);
        Print([Cmpd(Imm(k)), i]);
        c := c[..|c| - 1];
        done := done + [Cmpd(Imm(k)), i];
        Assoc(before, d, [Cmpd(Imm(k)), i]);
        Assoc(d, [Cmpd(Imm(k)), i], CaseTests(c, l, l + 1, n));
      }
      cslabel := FwdLabel();
      Print([Cmpd(Imm(c[0])), Branch(NE, cslabel)]);
      Assoc(before, done, [Cmpd(Imm(c[0])), Branch(NE, l + 1)]);
    }

    // ---------- functions ----------

    /** fdecl after its declarations: entry, body, and the return at the end. */
    method FunctionBody(body: Stmt)
      requires SoundS(body) && control && blabel == clabel == 0
      modifies this
      ensures code == old(code) + GenF(body, lvar, old(labelno)).code && labelno == GenF(body, lvar, old(labelno)).next
    {
      hide GenS; hide SoundS; hide Epilogue;
      ghost var before := code;
      Print([PshsU, LeauS]);
      if lvar != 0 { Print([Leas(OffS(-(lvar as int)))]); }
      assert code == before + Prologue(lvar);
      Statement(body);
      ghost var g := GenS(body, Env(0, 0, lvar), old(labelno), true);
      ghost var tail := if g.control then Epilogue(lvar, false) else [];
      if control { control := false; Print(Epilogue(lvar, false)); }
      Assoc(before + Prologue(lvar), g.code, tail);
      Assoc(before, Prologue(lvar), g.code + tail);
    }
  }

  /** The text printed for a function, from nothing: it does what the body means. */
  method Compile(body: Stmt, locals: nat) returns (code: seq<Instr>)
    requires SoundS(body)
    ensures Implements(code, body, locals)
  {
    hide Implements; hide GenF; hide SoundS;
    var output := new Output(locals);
    output.FunctionBody(body);
    assert output.code == GenF(body, locals, 2).code;
    CompiledImplements(body, locals, 2);
    code := output.code;
  }

  lemma Three(a: seq<Instr>, b: seq<Instr>, c: seq<Instr>, d: seq<Instr>)
    ensures a + b + c + d == a + (b + (c + d))
  {
    Assoc(a + b, c, d);
    Assoc(a, b, c + d);
  }

  lemma Six(a: seq<Instr>, b: seq<Instr>, c: seq<Instr>, d: seq<Instr>, e: seq<Instr>, f: seq<Instr>)
    ensures a + b + c + d + e + f == a + (b + (c + (d + (e + f))))
  {
    Assoc(a + b + c + d, e, f);
    Five(a, b, c, d, e + f);
  }

  lemma LoopPieces(a: seq<Instr>, b: seq<Instr>, c: seq<Instr>, d: seq<Instr>, i: Instr, j: Instr)
    ensures a + b + c + d + [i] + [j] == a + (b + (c + (d + [i, j])))
  {
    Assoc(a + b + c + d, [i], [j]);
    assert [i] + [j] == [i, j];
    Five(a, b, c, d, [i, j]);
  }

  lemma SwitchPieces(a: seq<Instr>, b: seq<Instr>, c: seq<Instr>, i: Instr, j: Instr)
    ensures a + b + c + [i] + [j] == a + (b + (c + [i, j]))
  {
    Assoc(a + b + c, [i], [j]);
    assert [i] + [j] == [i, j];
    Three(a, b, c, [i, j]);
  }

  lemma TestsFirst(ks: seq<int>, l: nat, fail: nat, n: int)
    requires |ks| > 1
    ensures CaseTests(ks, l, fail, n)
         == [Cmpd(Imm(ks[|ks| - 1])), if n - 6 > 127 then Branch(EQ, l) else ShortEq(l)] + CaseTests(ks[..|ks| - 1], l, fail, n - 6)
  {}

  // ---------- the functions of Statements, one statement at a time ----------

  lemma SeqIs(s1: Stmt, s2: Stmt, env: Env, n: nat, k: bool)
    ensures var g1 := GenS(s1, env, n, k);
            var g2 := GenS(s2, env, g1.next, g1.control);
            GenS(Seq(s1, s2), env, n, k) == Gen(g1.code + g2.code, g2.next, g2.control)
  {}

  lemma IfIs(c: Expr, s1: Stmt, env: Env, n: nat, k: bool)
    ensures var g1 := GenB(c, false, n, n + 1, k);
            var g2 := GenS(s1, env, g1.next, g1.control);
            GenS(If(c, s1), env, n, k) == Gen(g1.code + (g2.code + [Label(n)]), g2.next, true)
  {
    hide GenB;
  }

  lemma IfElseIs(c: Expr, s1: Stmt, s2: Stmt, env: Env, n: nat, k: bool)
    ensures var g1 := GenB(c, false, n, n + 1, k);
            var g2 := GenS(s1, env, g1.next, g1.control);
            var l2 := g2.next;
            var g3 := GenS(s2, env, if g2.control then l2 + 1 else l2, true);
            GenS(IfElse(c, s1, s2), env, n, k) ==
            if g2.control then Gen(g1.code + (g2.code + ([Jmp(l2), Label(n)] + (g3.code + [Label(l2)]))), g3.next, true)
            else Gen(g1.code + (g2.code + ([Label(n)] + g3.code)), g3.next, g3.control)
  {
    hide GenB;
  }

  lemma WhileIs(c: Expr, s1: Stmt, env: Env, n: nat, k: bool)
    ensures var g1 := GenB(c, false, n, n + 2, true);
            var g2 := GenS(s1, env.(brk := n, cnt := n + 1), g1.next, g1.control);
            GenS(While(c, s1), env, n, k) == Gen([Label(n + 1)] + (g1.code + (g2.code + [Jmp(n + 1), Label(n)])), g2.next, true)
  {
    hide GenB;
  }

  lemma DoIs(s1: Stmt, c: Expr, env: Env, n: nat, k: bool)
    ensures var g1 := GenS(s1, env.(brk := n, cnt := n + 1), n + 3, true);
            var g2 := GenB(c, true, n + 2, g1.next, true);
            GenS(DoWhile(s1, c), env, n, k) == Gen([Label(n + 2)] + (g1.code + ([Label(n + 1)] + (g2.code + [Label(n)]))), g2.next, true)
  {
    hide GenB;
  }

  /** A for loop from its head label l on; n is the label of its end. */
  function ForTail(cond: Opt, step: Opt, s1: Stmt, env: Env, n: nat, l: nat): Gen {
    var g1 := if cond.Some? then GenB(cond.e, false, n, l + 1, true) else Gen([], l + 1, true);
    var g := ForBack(step, s1, env, n, l, g1.next, g1.control);
    Gen([Label(l)] + (g1.code + g.code), g.next, true)
  }

  /** What follows its condition. */
  function ForBack(step: Opt, s1: Stmt, env: Env, n: nat, l: nat, next: nat, k: bool): (g: Gen)
    ensures g.control
  {
    if step.None? then
      var g2 := GenS(s1, env.(brk := n, cnt := l), next, k);
      Gen(g2.code + [Jmp(l), Label(n)], g2.next, true)
    else
      var g2 := GenS(s1, env.(brk := n, cnt := next), next + 1, k);
      var g3 := GenE(step.e, g2.next, true);
      Gen(g2.code + ([Label(next)] + (g3.code + [Jmp(l), Label(n)])), g3.next, true)
  }

  lemma ForIs(init: Opt, cond: Opt, step: Opt, s1: Stmt, env: Env, n: nat, k: bool)
    ensures var g0 := GenOpt(init, n + 1, k);
            var g := ForTail(cond, step, s1, env, n, g0.next);
            GenS(For(init, cond, step, s1), env, n, k) == Gen(g0.code + g.code, g.next, true) && g.control
  {
    hide GenB; hide GenE; hide GenOpt;
  }

  lemma SwitchIs(e: Expr, cs: Clauses, env: Env, n: nat, k: bool)
    ensures var g1 := GenE(e, n + 1, k);
            var gc := GenClauses(cs, env.(brk := n), 0, 0, g1.next, false);
            var last := if gc.dl != 0 then Equ(gc.csl, gc.dl) else Label(gc.csl);
            GenS(Switch(e, cs), env, n, k) == Gen(g1.code + (gc.g.code + [last, Label(n)]), gc.g.next, true)
  {
    hide GenE; hide GenClauses;
  }

  lemma CaseIs(ks: seq<int>, body: Stmt, next: Clauses, env: Env, csl: nat, dl: nat, n: nat, k: bool)
    requires |ks| > 0
    ensures var g1 := GenS(body, env, n + 2, true);
            var gc := GenClauses(next, env, n + 1, dl, g1.next, g1.control);
            GenClauses(Case(ks, body, next), env, csl, dl, n, k)
            == gc.(g := Gen(CaseCode(ks, csl, n, k) + (g1.code + gc.g.code), gc.g.next, gc.g.control))
  {
    hide GenS; hide CaseCode;
  }

  lemma DefaultIs(body: Stmt, next: Clauses, env: Env, csl: nat, dl: nat, n: nat, k: bool)
    ensures var first := if csl == 0 then [Jmp(n)] else [];
            var d := if csl == 0 then n + 1 else n;
            var g1 := GenS(body, env, d + 1, true);
            var gc := GenClauses(next, env, if csl == 0 then n else csl, d, g1.next, g1.control);
            GenClauses(Default(body, next), env, csl, dl, n, k)
            == gc.(g := Gen(first + ([Label(d)] + (g1.code + gc.g.code)), gc.g.next, gc.g.control))
  {
    hide GenS;
  }

  lemma CondParts(c: Expr, t: Expr, f: Expr, n: nat, k: bool)
    ensures var g1 := GenB(c, false, n, n + 1, k);
            var g2 := GenE(t, g1.next, g1.control);
            var g3 := GenE(f, g2.next + 1, true);
            GenCond(c, t, f, n, k) == Gen(g1.code + (g2.code + ([Jmp(g2.next), Label(n)] + (g3.code + [Label(g2.next)]))), g3.next, true)
  {
    hide GenB; hide GenE;
  }

  lemma CondPieces(a: seq<Instr>, b: seq<Instr>, c: seq<Instr>, i: Instr, j: Instr, d: seq<Instr>, k: Instr)
    ensures a + b + c + [i] + [j] + d + [k] == a + (b + (c + ([i, j] + (d + [k]))))
  {
    Assoc(a + b + c, [i], [j]);
    assert [i] + [j] == [i, j];
    Assoc(a + b + c + [i, j], d, [k]);
    Five(a, b, c, [i, j], d + [k]);
  }

  lemma Five(a: seq<Instr>, b: seq<Instr>, c: seq<Instr>, d: seq<Instr>, e: seq<Instr>)
    ensures a + b + c + d + e == a + (b + (c + (d + e)))
  {
    Assoc(a + b + c, d, e);
    Assoc(a + b, c, d + e);
    Assoc(a, b, c + (d + e));
  }
}
