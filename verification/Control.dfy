/**
  The `control` flag: when the compiler thinks that a point cannot be reached by falling
  into it, the source program indeed never gets there.
 */
module Control {
  import opened Machine
  import opened Source
  import opened CodeGen
  import opened Statements

  /** Expression code ends where it can be reached. */
  lemma ControlE(e: Expr, n: nat)
    ensures GenE(e, n, true).control
    decreases Size(e), 5
  {
    hide GenB; hide GenRInd; hide GenBin; hide GenAssign; hide GenAssOp; hide GenInc; hide GenL;
    if !IsBool(e) {
      match e
      case RVar(_) =>
      case CRVar(_) =>
      case Const(_) =>
      case Address(_) =>
      case RInd(a, byte) => ControlRInd(a, byte, n);
      case Minus(a) => ControlE(a, n);
      case BNot(a) => ControlE(a, n);
      case PreInc(lv, i) => ControlInc(lv, i, n);
      case PostInc(lv, i) => ControlInc(lv, i, n);
      case CStep(lv, _, _) => ControlL(lv, n);
      case Bin(op, l, r) => ControlBin(op, l, r, n);
      case CondE(_, _, _) =>
      case Assign(lv, a, byte) => ControlAssign(lv, a, byte, n);
      case AssOp(lv, a, op, byte) => ControlAssOp(lv, a, op, byte, n);
      case Comma(l, r) => ControlE(l, n); ControlE(r, GenE(l, n, true).next);
      case CommaL(lv, r) => ControlL(lv, n); ControlE(r, GenL(lv, n, true).next);
    }
  }

  lemma ControlL(lv: LVal, n: nat)
    ensures GenL(lv, n, true).control
    decreases LSize(lv), 0
  {
    hide GenE;
    if lv.Indirect? {
      var e := lv.e;
      ControlE(e, n);
      if e.Bin? { ControlE(e.l, n); ControlE(e.r, n); }
    }
  }

  lemma ControlInc(lv: LVal, i: int, n: nat)
    ensures GenInc(lv, i, n, true).control
    decreases LSize(lv), 1
  {
    hide GenL;
    ControlL(lv, n);
  }

  lemma ControlBin(op: BinOp, l: Expr, r: Expr, n: nat)
    ensures GenBin(op, l, r, n, true).control
    decreases Size(l) + Size(r) + 1, 0
  {
    hide GenE;
    ControlE(l, n);
    ControlE(r, n);
    ControlE(l, GenE(r, n, true).next);
  }

  lemma ControlRInd(a: Expr, byte: bool, n: nat)
    ensures GenRInd(a, byte, n, true).control
    decreases Size(a), 6
  {
    hide GenE;
    ControlE(a, n);
    if a.Bin? {
      ControlE(a.l, n);
      ControlE(a.r, n);
      ControlE(a.r, GenE(a.l, n, true).next);
    }
  }

  lemma ControlAssign(lv: LVal, e: Expr, byte: bool, n: nat)
    ensures GenAssign(lv, e, byte, n, true).control
    decreases LSize(lv) + Size(e), 3
  {
    hide GenE; hide GenL;
    ControlE(e, n);
    ControlL(lv, n);
    ControlE(e, GenL(lv, n, true).next);
    ControlL(lv, GenE(e, n, true).next);
  }

  lemma ControlAssOp(lv: LVal, e: Expr, op: BinOp, byte: bool, n: nat)
    ensures GenAssOp(lv, e, op, byte, n, true).control
    decreases LSize(lv) + Size(e), 3
  {
    hide GenE; hide GenL; hide Oprt; hide TosOp;
    ControlE(e, n);
    ControlL(lv, n);
    ControlL(lv, GenE(e, n, true).next);
  }

  /** The truth of a condition is `cond` whenever it has one. */
  ghost predicate Always(e: Expr, cond: bool) {
    forall cx: Ctx, m: Memory :: Eval(e, cx, m).Val? ==> (Eval(e, cx, m).v != 0) == cond
  }

  /** If the flag is off after a condition, the condition always jumps. */
  lemma ControlB(e: Expr, cond: bool, l: nat, n: nat, k: bool)
    requires SoundCond(e) && k && !GenB(e, cond, l, n, k).control
    ensures Always(e, cond)
    decreases Size(e), 5
  {
    hide GenE; hide GenBin;
    if IsBool(e) {
      match e
      case LNot(a) => ControlB(a, !cond, l, n, k); NotAlways(a, cond);
      case Cmp(_, a, b) => ControlBin(Sub, a, b, n);
      case LAnd(a, b) => LogicAlways(a, b, true, cond, l, n);
      case LOr(a, b) => LogicAlways(a, b, false, cond, l, n);
    } else if e.Const? {
      ConstAlways(e.c, cond);
    } else {
      ControlE(e, n);
    }
  }

  lemma NotAlways(a: Expr, cond: bool)
    requires Always(a, !cond)
    ensures Always(LNot(a), cond)
  {}

  lemma ConstAlways(c: int, cond: bool)
    requires ConstCondOk(c) && cond == (c != 0)
    ensures Always(Const(c), cond)
  {}

  lemma LogicAlways(a: Expr, b: Expr, and: bool, cond: bool, l: nat, n: nat)
    requires SoundCond(a) && SoundCond(b)
    requires var e := if and then LAnd(a, b) else LOr(a, b); !GenB(e, cond, l, n, true).control
    ensures Always(if and then LAnd(a, b) else LOr(a, b), cond)
    decreases Size(a) + Size(b) + 1, 0
  {
    hide GenE; hide GenBin;
    var e := if and then LAnd(a, b) else LOr(a, b);
    var g1 := GenB(a, cond, l, n, true);
    if !g1.control {
      ControlB(a, cond, l, n, true);
      forall cx, m | Eval(e, cx, m).Val? ensures (Eval(e, cx, m).v != 0) == cond { FirstDecides(a, b, and, cx, m); }
    } else {
      ControlB(b, cond, l, g1.next, true);
      forall cx, m | Eval(e, cx, m).Val? ensures (Eval(e, cx, m).v != 0) == cond { FirstDecides(a, b, and, cx, m); }
    }
  }

  lemma FirstDecides(a: Expr, b: Expr, and: bool, cx: Ctx, m: Memory)
    ensures var e := if and then LAnd(a, b) else LOr(a, b);
            var r1 := Eval(a, cx, m);
            Eval(e, cx, m).Val? ==>
              r1.Val? &&
              if (r1.v != 0) != and then (Eval(e, cx, m).v != 0) == (r1.v != 0)
              else Eval(b, cx, r1.m).Val? && (Eval(e, cx, m).v != 0) == (Eval(b, cx, r1.m).v != 0)
  {}
}
