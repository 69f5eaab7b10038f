/**
  Statements of a function body, what they do, and the code the statement compilers emit.
 */
module Statements {
  import opened Machine
  import opened Source
  import opened CodeGen

  datatype Opt = None | Some(e: Expr)

  /** Seq and Skip are the statements between braces; WhileNull is `while (c) ;`. */
  datatype Stmt =
    | Skip
    | ExprS(e: Expr)
    | Seq(s1: Stmt, s2: Stmt)
    | If(c: Expr, s: Stmt)
    | IfElse(c: Expr, s1: Stmt, s2: Stmt)
    | While(c: Expr, s: Stmt)
    | WhileNull(c: Expr)
    | DoWhile(s: Stmt, c: Expr)
    | For(init: Opt, cond: Opt, step: Opt, s: Stmt)
    | Switch(e: Expr, cs: Clauses)
    | Break
    | Continue
    | Return(r: Opt)

  /** A switch body: case groups and at most one default, each with what follows it. */
  datatype Clauses =
    | End
    | Case(consts: seq<int>, body: Stmt, next: Clauses)
    | Default(body: Stmt, next: Clauses)

  function StmtSize(s: Stmt): nat {
    match s
    case Skip => 1
    case ExprS(_) => 1
    case Seq(s1, s2) => 1 + StmtSize(s1) + StmtSize(s2)
    case If(_, s1) => 1 + StmtSize(s1)
    case IfElse(_, s1, s2) => 1 + StmtSize(s1) + StmtSize(s2)
    case While(_, s1) => 1 + StmtSize(s1)
    case WhileNull(_) => 2
    case DoWhile(s1, _) => 1 + StmtSize(s1)
    case For(_, _, _, s1) => 1 + StmtSize(s1)
    case Switch(_, cs) => 1 + ClausesSize(cs)
    case Break => 1
    case Continue => 1
    case Return(_) => 1
  }

  function ClausesSize(cs: Clauses): nat {
    match cs
    case End => 1
    case Case(_, body, next) => 1 + StmtSize(body) + ClausesSize(next)
    case Default(body, next) => 1 + StmtSize(body) + ClausesSize(next)
  }

  // ---------- meaning ----------

  /** How a statement ends. */
  datatype Flow =
    | Normal(m: Memory)
    | Brk(m: Memory)
    | Cnt(m: Memory)
    | Ret(v: Opt16, m: Memory)
    | Bad
    | Timeout(rounds: nat)

  datatype Opt16 = NoValue | Value(w: Word)

  predicate Listed(consts: seq<int>, v: Word) { exists c :: c in consts && Wrap(c) == v }

  predicate Matches(cs: Clauses, v: Word) {
    match cs
    case End => false
    case Case(ks, _, next) => Listed(ks, v) || Matches(next, v)
    case Default(_, next) => Matches(next, v)
  }

  predicate HasDefault(cs: Clauses) {
    match cs
    case End => false
    case Case(_, _, next) => HasDefault(next)
    case Default(_, _) => true
  }

  /** `fuel` bounds the rounds of every loop; a run that exceeds it reports rounds begun. */
  function Run(s: Stmt, cx: Ctx, m: Memory, fuel: nat): Flow
    decreases fuel, StmtSize(s), 0
  {
    match s
    case Skip => Normal(m)
    case ExprS(e) => (match Eval(e, cx, m) case Val(_, m1) => Normal(m1) case Fault => Bad)
    case Seq(s1, s2) => (match Run(s1, cx, m, fuel) case Normal(m1) => Run(s2, cx, m1, fuel) case f => f)
    case If(c, s1) =>
      (match Eval(c, cx, m)
       case Fault => Bad
       case Val(v, m1) => if v != 0 then Run(s1, cx, m1, fuel) else Normal(m1))
    case IfElse(c, s1, s2) =>
      (match Eval(c, cx, m)
       case Fault => Bad
       case Val(v, m1) => if v != 0 then Run(s1, cx, m1, fuel) else Run(s2, cx, m1, fuel))
    case While(c, s1) => RunWhile(c, s1, cx, m, fuel)
    case WhileNull(c) => RunWhile(c, Skip, cx, m, fuel)
    case DoWhile(s1, c) => RunDo(s1, c, cx, m, fuel)
    case For(init, cond, step, s1) =>
      if init.Some? then
        (match Eval(init.e, cx, m) case Fault => Bad case Val(_, m1) => RunFor(cond, step, s1, cx, m1, fuel))
      else RunFor(cond, step, s1, cx, m, fuel)
    case Switch(e, cs) =>
      (match Eval(e, cx, m)
       case Fault => Bad
       case Val(v, m1) =>
         match RunClauses(cs, v, !Matches(cs, v), false, cx, m1, fuel)
         case Brk(m2) => Normal(m2)
         case f => f)
    case Break => Brk(m)
    case Continue => Cnt(m)
    case Return(r) =>
      if r.None? then Ret(NoValue, m)
      else (match Eval(r.e, cx, m) case Fault => Bad case Val(v, m1) => Ret(Value(v), m1))
  }

  /** What a loop makes of the way its body ended; None means go on. */
  predicate GoesOn(f: Flow) { f.Normal? || f.Cnt? }

  function Ended(f: Flow): Flow
    requires !GoesOn(f)
  {
    if f.Brk? then Normal(f.m) else f
  }

  /** One round more. */
  function Again(f: Flow): Flow { if f.Timeout? then Timeout(f.rounds + 1) else f }

  function RunWhile(c: Expr, s: Stmt, cx: Ctx, m: Memory, fuel: nat): Flow
    decreases fuel, StmtSize(s), 1
  {
    match Eval(c, cx, m)
    case Fault => Bad
    case Val(v, m1) =>
      if v == 0 then Normal(m1) else
      var f := Run(s, cx, m1, fuel);
      Again(if !GoesOn(f) then Ended(f)
            else if fuel == 0 then Timeout(0)
            else RunWhile(c, s, cx, f.m, fuel - 1))
  }

  function RunDo(s: Stmt, c: Expr, cx: Ctx, m: Memory, fuel: nat): Flow
    decreases fuel, StmtSize(s), 1
  {
    var f := Run(s, cx, m, fuel);
    Again(
      if !GoesOn(f) then Ended(f) else
      match Eval(c, cx, f.m)
      case Fault => Bad
      case Val(v, m1) =>
        if v == 0 then Normal(m1)
        else if fuel == 0 then Timeout(0)
        else RunDo(s, c, cx, m1, fuel - 1))
  }

  /** An absent condition is true, an absent step does nothing. */
  function EvalOpt(o: Opt, cx: Ctx, m: Memory): Result {
    if o.None? then Val(1, m) else Eval(o.e, cx, m)
  }

  function RunFor(cond: Opt, step: Opt, s: Stmt, cx: Ctx, m: Memory, fuel: nat): Flow
    decreases fuel, StmtSize(s), 1
  {
    match EvalOpt(cond, cx, m)
    case Fault => Bad
    case Val(v, m1) =>
      if v == 0 then Normal(m1) else
      var f := Run(s, cx, m1, fuel);
      Again(
        if !GoesOn(f) then Ended(f) else
        match EvalOpt(step, cx, f.m)
        case Fault => Bad
        case Val(_, m2) => if fuel == 0 then Timeout(0) else RunFor(cond, step, s, cx, m2, fuel - 1))
  }

  /** Skip clauses until the one to enter (the first that lists v, or the default when
      `dflt`), then run that body and those after it. */
  function RunClauses(cs: Clauses, v: Word, dflt: bool, running: bool, cx: Ctx, m: Memory, fuel: nat): Flow
    decreases fuel, ClausesSize(cs), 0
  {
    match cs
    case End => Normal(m)
    case Case(ks, body, next) =>
      if running || (!dflt && Listed(ks, v)) then
        (match Run(body, cx, m, fuel)
         case Normal(m1) => RunClauses(next, v, dflt, true, cx, m1, fuel)
         case f => f)
      else RunClauses(next, v, dflt, false, cx, m, fuel)
    case Default(body, next) =>
      if running || dflt then
        (match Run(body, cx, m, fuel)
         case Normal(m1) => RunClauses(next, v, dflt, true, cx, m1, fuel)
         case f => f)
      else RunClauses(next, v, dflt, false, cx, m, fuel)
  }

  // ---------- which statements the theorem is about ----------

  predicate SoundOpt(o: Opt) { o.Some? ==> Sound(o.e) }

  predicate SoundS(s: Stmt) {
    match s
    case Skip => true
    case ExprS(e) => Sound(e)
    case Seq(s1, s2) => SoundS(s1) && SoundS(s2)
    case If(c, s1) => SoundCond(c) && SoundS(s1)
    case IfElse(c, s1, s2) => SoundCond(c) && SoundS(s1) && SoundS(s2)
    case While(c, s1) => SoundCond(c) && SoundS(s1)
    case WhileNull(c) => SoundCond(c)
    case DoWhile(s1, c) => SoundS(s1) && SoundCond(c)
    case For(init, cond, step, s1) =>
      SoundOpt(init) && (cond.Some? ==> SoundCond(cond.e)) && SoundOpt(step) && SoundS(s1)
    case Switch(e, cs) => Sound(e) && !cs.End? && SoundClauses(cs)
    case Break => true
    case Continue => true
    case Return(r) => SoundOpt(r)
  }

  /** Case groups list at least one constant and there is one default at most. */
  predicate SoundClauses(cs: Clauses) {
    match cs
    case End => true
    case Case(ks, body, next) => |ks| > 0 && SoundS(body) && SoundClauses(next)
    case Default(body, next) => SoundS(body) && SoundClauses(next) && !HasDefault(next)
  }

  function NeedOpt(o: Opt): nat { if o.Some? then Need(o.e) else 0 }

  function NeedS(s: Stmt): nat {
    match s
    case Skip => 0
    case ExprS(e) => Need(e)
    case Seq(s1, s2) => Max(NeedS(s1), NeedS(s2))
    case If(c, s1) => Max(Need(c), NeedS(s1))
    case IfElse(c, s1, s2) => Max(Need(c), Max(NeedS(s1), NeedS(s2)))
    case While(c, s1) => Max(Need(c), NeedS(s1))
    case WhileNull(c) => Need(c)
    case DoWhile(s1, c) => Max(Need(c), NeedS(s1))
    case For(init, cond, step, s1) => Max(Max(NeedOpt(init), NeedOpt(cond)), Max(NeedOpt(step), NeedS(s1)))
    case Switch(e, cs) => Max(Need(e), NeedClauses(cs))
    case Break => 0
    case Continue => 0
    case Return(r) => NeedOpt(r)
  }

  function NeedClauses(cs: Clauses): nat {
    match cs
    case End => 0
    case Case(_, body, next) => Max(NeedS(body), NeedClauses(next))
    case Default(body, next) => Max(NeedS(body), NeedClauses(next))
  }

  // ---------- code ----------

  /** Where break and continue go, and how many bytes of locals the function has. */
  datatype Env = Env(brk: nat, cnt: nat, locals: nat)

  /** The code of `return`: registers popped with U and PC when the frame is small. */
  function Epilogue(locals: nat, value: bool): seq<Instr> {
    if locals == 0 then [Puls(NoRegs)]
    else if value then (if locals == 2 then [Puls(PopX)] else [LeasU, Puls(NoRegs)])
    else if locals == 1 then [Puls(PopA)]
    else if locals == 2 then [Puls(PopD)]
    else if locals == 3 then [Puls(PopAX)]
    else if locals == 4 then [Puls(PopDX)]
    else [LeasU, Puls(NoRegs)]
  }

  function GenOpt(o: Opt, n: nat, k: bool): Gen {
    if o.Some? then GenE(o.e, n, k) else Gen([], n, k)
  }

  function GenS(s: Stmt, env: Env, n: nat, k: bool): Gen
  {
    match s
    case Skip => Gen([], n, k)
    case ExprS(e) => GenE(e, n, k)
    case Seq(s1, s2) =>
      var g1 := GenS(s1, env, n, k);
      var g2 := GenS(s2, env, g1.next, g1.control);
      Gen(g1.code + g2.code, g2.next, g2.control)
    case If(c, s1) =>
      var g1 := GenB(c, false, n, n + 1, k);
      var g2 := GenS(s1, env, g1.next, g1.control);
      Gen(g1.code + (g2.code + [Label(n)]), g2.next, true)
    case IfElse(c, s1, s2) =>
      var g1 := GenB(c, false, n, n + 1, k);
      var g2 := GenS(s1, env, g1.next, g1.control);
      if g2.control then
        var l2 := g2.next;
        var g3 := GenS(s2, env, l2 + 1, true);
        Gen(g1.code + (g2.code + ([Jmp(l2), Label(n)] + (g3.code + [Label(l2)]))), g3.next, true)
      else
        var g3 := GenS(s2, env, g2.next, true);
        Gen(g1.code + (g2.code + ([Label(n)] + g3.code)), g3.next, g3.control)
    case While(c, s1) =>
      var g1 := GenB(c, false, n, n + 2, true);
      var g2 := GenS(s1, env.(brk := n, cnt := n + 1), g1.next, g1.control);
      Gen([Label(n + 1)] + (g1.code + (g2.code + [Jmp(n + 1), Label(n)])), g2.next, true)
    case WhileNull(c) =>
      var g1 := GenB(c, true, n + 1, n + 2, true);
      Gen([Label(n + 1)] + (g1.code + [Label(n)]), g1.next, true)
    case DoWhile(s1, c) =>
      var g1 := GenS(s1, env.(brk := n, cnt := n + 1), n + 3, true);
      var g2 := GenB(c, true, n + 2, g1.next, true);
      Gen([Label(n + 2)] + (g1.code + ([Label(n + 1)] + (g2.code + [Label(n)]))), g2.next, true)
    case For(init, cond, step, s1) =>
      var g0 := GenOpt(init, n + 1, k);
      var l := g0.next;
      var g1 := if cond.Some? then GenB(cond.e, false, n, l + 1, true) else Gen([], l + 1, true);
      if step.None? then
        var g2 := GenS(s1, env.(brk := n, cnt := l), g1.next, g1.control);
        Gen(g0.code + ([Label(l)] + (g1.code + (g2.code + [Jmp(l), Label(n)]))), g2.next, true)
      else
        var lc := g1.next;
        var g2 := GenS(s1, env.(brk := n, cnt := lc), lc + 1, g1.control);
        var g3 := GenE(step.e, g2.next, true);
        Gen(g0.code + ([Label(l)] + (g1.code + (g2.code + ([Label(lc)] + (g3.code + [Jmp(l), Label(n)]))))), g3.next, true)
    case Switch(e, cs) =>
      var g1 := GenE(e, n + 1, k);
      var gc := GenClauses(cs, env.(brk := n), 0, 0, g1.next, false);
      var last := if gc.dl != 0 then Equ(gc.csl, gc.dl) else Label(gc.csl);
      Gen(g1.code + (gc.g.code + [last, Label(n)]), gc.g.next, true)
    case Break => Gen([Jmp(env.brk)], n, false)
    case Continue => Gen([Jmp(env.cnt)], n, false)
    case Return(r) =>
      var g := GenOpt(r, n, k);
      Gen(g.code + Epilogue(env.locals, r.Some?), g.next, false)
  }

  /** Code of clauses with the label that the next failing test goes to (`cslabel`) and the
      label of the default; 0 stands for none. */
  datatype GenC = GenC(g: Gen, csl: nat, dl: nat)

  /** The tests of one group; `n` is the byte count the compiler keeps to choose the branch. */
  function CaseTests(consts: seq<int>, l: nat, fail: nat, n: int): seq<Instr>
    requires |consts| > 0
  {
    if |consts| == 1 then [Cmpd(Imm(consts[0])), Branch(NE, fail)]
    else
      var last := |consts| - 1;
      [Cmpd(Imm(consts[last])), if n - 6 > 127 then Branch(EQ, l) else ShortEq(l)]
      + CaseTests(consts[..last], l, fail, n - 6)
  }

  function CaseJump(l: nat, n: int): Instr { if n > 127 then Jmp(l) else ShortJmp(l) }

  /** `docase`: jump over the tests when control can fall in, then the tests, then the
      label of the body. */
  function CaseCode(consts: seq<int>, csl: nat, l: nat, k: bool): seq<Instr>
    requires |consts| > 0
  {
    (if k then [CaseJump(l, 2 + 6 * |consts|)] else [])
    + ((if csl != 0 then [Label(csl)] else []) + (CaseTests(consts, l, l + 1, 2 + 6 * |consts|) + [Label(l)]))
  }

  function GenClauses(cs: Clauses, env: Env, csl: nat, dl: nat, n: nat, k: bool): GenC
  {
    match cs
    case End => GenC(Gen([], n, k), csl, dl)
    case Case(ks, body, next) =>
      if ks == [] then GenC(Gen([], n, k), csl, dl) else
      var g1 := GenS(body, env, n + 2, true);
      var gc := GenClauses(next, env, n + 1, dl, g1.next, g1.control);
      gc.(g := Gen(CaseCode(ks, csl, n, k) + (g1.code + gc.g.code), gc.g.next, gc.g.control))
    case Default(body, next) =>
      var first := if csl == 0 then [Jmp(n)] else [];
      var csl' := if csl == 0 then n else csl;
      var d := if csl == 0 then n + 1 else n;
      var g1 := GenS(body, env, d + 1, true);
      var gc := GenClauses(next, env, csl', d, g1.next, g1.control);
      gc.(g := Gen(first + ([Label(d)] + (g1.code + gc.g.code)), gc.g.next, gc.g.control))
  }
}
