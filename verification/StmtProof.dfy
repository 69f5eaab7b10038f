/** Code generated for statements does what the statements say. */
module StmtProof {
  import opened Machine
  import opened Engine
  import opened Source
  import opened CodeGen
  import opened Statements
  import opened ExprProof
  import opened OpProof
  import opened AccessProof
  import opened ExprCorrect
  import opened Control
  import opened Program
  import opened StmtLabels

  // ---------- what is claimed ----------

  /** The program gets from a to pc with S, U, Y restored and source memory m. */
  ghost predicate Gets(prog: seq<Instr>, a: Config, pc: nat, cx: Ctx, m: Memory) {
    exists st :: Reaches(prog, a, At(pc, st)) && After(cx, a.st, st, m)
  }

  /** The same, with a value in D. */
  ghost predicate GetsD(prog: seq<Instr>, a: Config, pc: nat, cx: Ctx, m: Memory, d: Word) {
    exists st :: Reaches(prog, a, At(pc, st)) && After(cx, a.st, st, m) && st.d == d
  }

  /** The program gets to the return sequence with the returned value in D. */
  ghost predicate Returns(prog: seq<Instr>, a: Config, locals: nat, cx: Ctx, v: Opt16, m: Memory) {
    exists q: nat, st ::
      && Reaches(prog, a, At(q, st)) && After(cx, a.st, st, m)
      && Placed(prog, q, Epilogue(locals, v.Value?)) && (v.Value? ==> st.d == v.w)
  }

  /** Running from a simulates a statement that ends with f; e is the end of its code and k
      its control flag there. */
  ghost predicate Simulates(prog: seq<Instr>, env: Env, a: Config, e: nat, cx: Ctx, k: bool, f: Flow) {
    match f
    case Normal(m) => k && Gets(prog, a, e, cx, m)
    case Brk(m) => Gets(prog, a, Target(prog, env.brk), cx, m)
    case Cnt(m) => Gets(prog, a, Target(prog, env.cnt), cx, m)
    case Ret(v, m) => Returns(prog, a, env.locals, cx, v, m)
    case Bad => true
    case Timeout(rounds) => Long(prog, a, rounds)
  }

  // ---------- chaining ----------

  lemma GetsFirst(prog: seq<Instr>, a: Config, a1: Config, pc: nat, cx: Ctx, m1: Memory, m: Memory)
    requires Reaches(prog, a, a1) && After(cx, a.st, a1.st, m1) && Gets(prog, a1, pc, cx, m)
    ensures Gets(prog, a, pc, cx, m)
  {
    hide Reaches; hide After;
    var st :| Reaches(prog, a1, At(pc, st)) && After(cx, a1.st, st, m);
    ReachesTrans(prog, a, a1, At(pc, st));
    KeptTrans(cx, a.st, a1.st, st, m1, m);
  }

  lemma Prepend(prog: seq<Instr>, env: Env, a: Config, a1: Config, e: nat, cx: Ctx, k: bool, m1: Memory, f: Flow)
    requires Reaches(prog, a, a1) && After(cx, a.st, a1.st, m1) && Simulates(prog, env, a1, e, cx, k, f)
    ensures Simulates(prog, env, a, e, cx, k, f)
  {
    hide Reaches; hide After; hide Gets; hide Target; hide Placed; hide Epilogue; hide Long;
    match f
    case Normal(m) => GetsFirst(prog, a, a1, e, cx, m1, m);
    case Brk(m) => GetsFirst(prog, a, a1, Target(prog, env.brk), cx, m1, m);
    case Cnt(m) => GetsFirst(prog, a, a1, Target(prog, env.cnt), cx, m1, m);
    case Ret(v, m) =>
      var q: nat, st :| Reaches(prog, a1, At(q, st)) && After(cx, a1.st, st, m)
        && Placed(prog, q, Epilogue(env.locals, v.Value?)) && (v.Value? ==> st.d == v.w);
      ReachesTrans(prog, a, a1, At(q, st));
      KeptTrans(cx, a.st, a1.st, st, m1, m);
    case Bad =>
    case Timeout(rounds) =>
      LongBefore(prog, a, a1, rounds);
      LongLess(prog, a, if a.pc != a1.pc then rounds + 1 else rounds, rounds);
  }

  /** From the head of a loop to another place: one round more. */
  lemma PrependAgain(prog: seq<Instr>, env: Env, a: Config, a1: Config, e: nat, cx: Ctx, k: bool, m1: Memory, f: Flow)
    requires Reaches(prog, a, a1) && After(cx, a.st, a1.st, m1) && Simulates(prog, env, a1, e, cx, k, f) && a.pc != a1.pc
    ensures Simulates(prog, env, a, e, cx, k, Again(f))
  {
    hide Reaches; hide After; hide Gets; hide Target; hide Placed; hide Epilogue; hide Long; hide Returns;
    if f.Timeout? { LongBefore(prog, a, a1, f.rounds); } else { Prepend(prog, env, a, a1, e, cx, k, m1, f); }
  }

  /** The loop goes on, with no fuel left. */
  lemma LoopAgain(prog: seq<Instr>, env: Env, a: Config, a1: Config, e: nat, cx: Ctx)
    requires Reaches(prog, a, a1) && a1.pc < |prog| && prog[a1.pc].Label?
    ensures Simulates(prog, env, a, e, cx, true, Timeout(0))
  {
    hide Reaches;
    assert Long(prog, a1, 0);
    LongBefore(prog, a, a1, 0);
    LongLess(prog, a, if a.pc != a1.pc then 1 else 0, 0);
  }

  /** One step that leaves the state alone at the end of a stretch. */
  lemma GetsStep(prog: seq<Instr>, a: Config, pc: nat, pc': nat, cx: Ctx, m: Memory)
    requires Gets(prog, a, pc, cx, m) && forall st :: Step(prog, At(pc, st)) == At(pc', st)
    ensures Gets(prog, a, pc', cx, m)
  {
    hide Reaches; hide After; hide Step;
    var st :| Reaches(prog, a, At(pc, st)) && After(cx, a.st, st, m);
    assert Step(prog, At(pc, st)) == At(pc', st);
    ReachesStep(prog, At(pc, st));
    ReachesTrans(prog, a, At(pc, st), At(pc', st));
  }

  lemma GetsLabel(prog: seq<Instr>, a: Config, pc: nat, cx: Ctx, m: Memory)
    requires Gets(prog, a, pc, cx, m) && pc < |prog| && (prog[pc].Label? || prog[pc].Equ?)
    ensures Gets(prog, a, pc + 1, cx, m)
  {
    hide Gets; hide Step;
    forall st ensures Step(prog, At(pc, st)) == At(pc + 1, st) { LabelStep(prog, pc, st); }
    GetsStep(prog, a, pc, pc + 1, cx, m);
  }

  lemma GetsJump(prog: seq<Instr>, a: Config, pc: nat, l: nat, cx: Ctx, m: Memory)
    requires Gets(prog, a, pc, cx, m) && pc < |prog| && (prog[pc] == Jmp(l) || prog[pc] == ShortJmp(l))
    ensures Gets(prog, a, Target(prog, l), cx, m)
  {
    hide Gets; hide Step; hide Target;
    forall st ensures Step(prog, At(pc, st)) == At(Target(prog, l), st) { JumpStep(prog, pc, st, l); }
    GetsStep(prog, a, pc, Target(prog, l), cx, m);
  }

  lemma GetsHere(prog: seq<Instr>, pc: nat, cx: Ctx, st: Cpu, m: Memory)
    requires Ready(cx, st, m, 0)
    ensures Gets(prog, At(pc, st), pc, cx, m)
  {
    hide Reaches;
    ReachesRefl(prog, At(pc, st));
    KeptRefl(cx, st);
  }

  /** A label at the end: the point after it can always be reached. */
  lemma EndLabel(prog: seq<Instr>, env: Env, a: Config, e: nat, cx: Ctx, k: bool, f: Flow)
    requires Simulates(prog, env, a, e, cx, k, f) && e < |prog| && prog[e].Label?
    ensures Simulates(prog, env, a, e + 1, cx, true, f)
  {
    hide Gets; hide Target; hide Returns;
    if f.Normal? { GetsLabel(prog, a, e, cx, f.m); }
  }

  /** Only a normal end depends on where the code ends. */
  lemma NotNormal(prog: seq<Instr>, env: Env, a: Config, e: nat, e': nat, cx: Ctx, k: bool, k': bool, f: Flow)
    requires Simulates(prog, env, a, e, cx, k, f) && !f.Normal?
    ensures Simulates(prog, env, a, e', cx, k', f)
  {
    hide Gets; hide Target; hide Returns;
  }

  // ---------- expressions and conditions in place ----------

  lemma ExprAt(e: Expr, n: nat, k: bool, prog: seq<Instr>, pc: nat, cx: Ctx, st: Cpu, m: Memory)
    requires Sound(e) && Unique(prog) && Placed(prog, pc, GenE(e, n, k).code) && Ready(cx, st, m, Need(e))
    requires Eval(e, cx, m).Val?
    ensures GetsD(prog, At(pc, st), pc + |GenE(e, n, k).code|, cx, Eval(e, cx, m).m, Eval(e, cx, m).v)
  {
    hide Reaches; hide After; hide Exec; hide Eval; hide GenE; hide Sound; hide Need; hide Unique; hide Placed;
    CorrectE(e, n, k, cx, st, m);
    ExecInProgram(prog, pc, GenE(e, n, k).code, st);
  }

  lemma CondAt(c: Expr, cond: bool, l: nat, n: nat, k: bool, prog: seq<Instr>, pc: nat, cx: Ctx, st: Cpu, m: Memory)
    requires SoundCond(c) && l < n && Unique(prog) && Placed(prog, pc, GenB(c, cond, l, n, k).code) && Ready(cx, st, m, Need(c))
    requires Eval(c, cx, m).Val?
    ensures var r := Eval(c, cx, m);
            Gets(prog, At(pc, st), if (r.v != 0) == cond then Target(prog, l) else pc + |GenB(c, cond, l, n, k).code|, cx, r.m)
  {
    hide Reaches; hide After; hide Exec; hide Eval; hide GenB; hide SoundCond; hide Need; hide Unique; hide Placed; hide Target;
    CorrectB(c, cond, l, n, k, cx, st, m);
    ExecInProgram(prog, pc, GenB(c, cond, l, n, k).code, st);
  }

  /** A condition that can be true leaves the flag on. */
  lemma CondControl(c: Expr, cond: bool, l: nat, n: nat, cx: Ctx, m: Memory)
    requires SoundCond(c) && Eval(c, cx, m).Val? && (Eval(c, cx, m).v != 0) != cond
    ensures GenB(c, cond, l, n, true).control
  {
    hide GenB; hide Eval; hide SoundCond;
    if !GenB(c, cond, l, n, true).control { ControlB(c, cond, l, n, true); }
  }

  // ---------- where the pieces of a statement stand ----------

  /** A piece followed by one instruction. */
  lemma Layout1(prog: seq<Instr>, pc: nat, c1: seq<Instr>, i: Instr)
    requires Placed(prog, pc, c1 + [i])
    ensures Placed(prog, pc, c1) && pc + |c1| < |prog| && prog[pc + |c1|] == i
  {
    PlacedSplit(prog, pc, c1, [i]);
    PlacedAt(prog, pc + |c1|, [i], 0);
  }

  /** One instruction followed by a piece. */
  lemma LayoutFirst(prog: seq<Instr>, pc: nat, i: Instr, c: seq<Instr>)
    requires Placed(prog, pc, [i] + c)
    ensures pc < |prog| && prog[pc] == i && Placed(prog, pc + 1, c)
  {
    PlacedSplit(prog, pc, [i], c);
    PlacedAt(prog, pc, [i], 0);
  }

  lemma Layout2(prog: seq<Instr>, pc: nat, c1: seq<Instr>, i: Instr, j: Instr)
    requires Placed(prog, pc, c1 + [i, j])
    ensures Placed(prog, pc, c1) && pc + |c1| + 1 < |prog| && prog[pc + |c1|] == i && prog[pc + |c1| + 1] == j
  {
    PlacedSplit(prog, pc, c1, [i, j]);
    PlacedAt(prog, pc + |c1|, [i, j], 0);
    PlacedAt(prog, pc + |c1|, [i, j], 1);
  }

  lemma LayoutMid(prog: seq<Instr>, pc: nat, i: Instr, j: Instr, c: seq<Instr>)
    requires Placed(prog, pc, [i, j] + c)
    ensures pc + 1 < |prog| && prog[pc] == i && prog[pc + 1] == j && Placed(prog, pc + 2, c)
  {
    PlacedSplit(prog, pc, [i, j], c);
    PlacedAt(prog, pc, [i, j], 0);
    PlacedAt(prog, pc, [i, j], 1);
  }

  // ---------- plain statements ----------

  lemma SimNormal(prog: seq<Instr>, env: Env, a: Config, e: nat, cx: Ctx, m: Memory)
    requires Gets(prog, a, e, cx, m)
    ensures Simulates(prog, env, a, e, cx, true, Normal(m))
  {}

  lemma SimBad(prog: seq<Instr>, env: Env, a: Config, e: nat, cx: Ctx, k: bool)
    ensures Simulates(prog, env, a, e, cx, k, Bad)
  {}

  lemma SimExpr(e: Expr, env: Env, n: nat, prog: seq<Instr>, pc: nat, cx: Ctx, st: Cpu, m: Memory, fuel: nat)
    requires Sound(e) && Unique(prog) && Placed(prog, pc, GenE(e, n, true).code) && Ready(cx, st, m, Need(e))
    ensures Simulates(prog, env, At(pc, st), pc + |GenE(e, n, true).code|, cx, GenE(e, n, true).control, Run(ExprS(e), cx, m, fuel))
  {
    hide Reaches; hide After; hide Eval; hide GenE; hide Sound; hide Need; hide Unique; hide Placed;
    if Eval(e, cx, m).Val? {
      ExprAt(e, n, true, prog, pc, cx, st, m);
      ControlE(e, n);
    }
  }

  lemma SimReturn(r: Opt, env: Env, n: nat, prog: seq<Instr>, pc: nat, cx: Ctx, st: Cpu, m: Memory, fuel: nat)
    requires SoundOpt(r) && Unique(prog) && Placed(prog, pc, GenS(Return(r), env, n, true).code) && Ready(cx, st, m, NeedOpt(r))
    ensures var g := GenS(Return(r), env, n, true);
            Simulates(prog, env, At(pc, st), pc + |g.code|, cx, g.control, Run(Return(r), cx, m, fuel))
  {
    hide Reaches; hide After; hide Eval; hide GenE; hide Sound; hide Need; hide Unique; hide Placed; hide Epilogue; hide Agree;
    var g := GenOpt(r, n, true);
    PlacedSplit(prog, pc, g.code, Epilogue(env.locals, r.Some?));
    if r.None? {
      ReachesRefl(prog, At(pc, st));
      AfterRefl(cx, st, m);
    } else if Eval(r.e, cx, m).Val? {
      ExprAt(r.e, n, true, prog, pc, cx, st, m);
    }
  }

  lemma SimSeq(s1: Stmt, s2: Stmt, env: Env, n: nat, prog: seq<Instr>, pc: nat, cx: Ctx, st: Cpu, m: Memory, fuel: nat)
    requires SoundS(Seq(s1, s2)) && Unique(prog) && Placed(prog, pc, GenS(Seq(s1, s2), env, n, true).code)
    requires Ready(cx, st, m, NeedS(Seq(s1, s2)))
    ensures var g := GenS(Seq(s1, s2), env, n, true);
            Simulates(prog, env, At(pc, st), pc + |g.code|, cx, g.control, Run(Seq(s1, s2), cx, m, fuel))
    decreases fuel, StmtSize(Seq(s1, s2)), 0
  {
    hide Reaches; hide After; hide Unique; hide Placed; hide Agree; hide Target; hide Returns; hide GenS; hide Run; hide Simulates; hide SoundS; hide NeedS;
    SeqParts(s1, s2, env, n, cx, m, fuel);
    var g1 := GenS(s1, env, n, true);
    var g2 := GenS(s2, env, g1.next, g1.control);
    var pc1 := pc + |g1.code|;
    PlacedSplit(prog, pc, g1.code, g2.code);
    StmtCorrect(s1, env, n, prog, pc, cx, st, m, fuel);
    var f := Run(s1, cx, m, fuel);
    if f.Normal? {
      FellThrough(prog, env, At(pc, st), pc1, cx, g1.control, f);
      var st1 :| Reaches(prog, At(pc, st), At(pc1, st1)) && After(cx, st, st1, f.m);
      AfterReady(cx, st, m, NeedS(Seq(s1, s2)), st1, f.m);
      StmtCorrect(s2, env, g1.next, prog, pc1, cx, st1, f.m, fuel);
      Prepend(prog, env, At(pc, st), At(pc1, st1), pc1 + |g2.code|, cx, g2.control, f.m, Run(s2, cx, f.m, fuel));
    } else {
      NotNormal(prog, env, At(pc, st), pc1, pc1 + |g2.code|, cx, g1.control, g2.control, f);
    }
  }

  lemma SeqParts(s1: Stmt, s2: Stmt, env: Env, n: nat, cx: Ctx, m: Memory, fuel: nat)
    ensures var g1 := GenS(s1, env, n, true);
            var g2 := GenS(s2, env, g1.next, g1.control);
            GenS(Seq(s1, s2), env, n, true) == Gen(g1.code + g2.code, g2.next, g2.control)
    ensures var f := Run(s1, cx, m, fuel);
            Run(Seq(s1, s2), cx, m, fuel) == if f.Normal? then Run(s2, cx, f.m, fuel) else f
    ensures NeedS(Seq(s1, s2)) == Max(NeedS(s1), NeedS(s2))
    ensures SoundS(Seq(s1, s2)) == (SoundS(s1) && SoundS(s2))
    ensures StmtSize(Seq(s1, s2)) == 1 + StmtSize(s1) + StmtSize(s2)
  {}

  // ---------- if ----------

  /** A statement and then a label. */
  lemma BeforeLabel(s: Stmt, env: Env, n: nat, prog: seq<Instr>, pc: nat, cx: Ctx, st: Cpu, m: Memory, fuel: nat)
    requires SoundS(s) && Unique(prog) && Ready(cx, st, m, NeedS(s)) && Placed(prog, pc, GenS(s, env, n, true).code)
    requires var e := pc + |GenS(s, env, n, true).code|; e < |prog| && prog[e].Label?
    ensures Simulates(prog, env, At(pc, st), pc + |GenS(s, env, n, true).code| + 1, cx, true, Run(s, cx, m, fuel))
    decreases fuel, StmtSize(s), 2
  {
    hide Reaches; hide After; hide Unique; hide Target; hide Agree; hide Simulates; hide Placed; hide GenS; hide Run; hide SoundS; hide NeedS;
    var g := GenS(s, env, n, true);
    StmtCorrect(s, env, n, prog, pc, cx, st, m, fuel);
    EndLabel(prog, env, At(pc, st), pc + |g.code|, cx, g.control, Run(s, cx, m, fuel));
  }

  lemma SimIf(c: Expr, s1: Stmt, env: Env, n: nat, prog: seq<Instr>, pc: nat, cx: Ctx, st: Cpu, m: Memory, fuel: nat)
    requires SoundS(If(c, s1)) && Unique(prog) && Placed(prog, pc, GenS(If(c, s1), env, n, true).code)
    requires Ready(cx, st, m, NeedS(If(c, s1)))
    ensures var g := GenS(If(c, s1), env, n, true);
            Simulates(prog, env, At(pc, st), pc + |g.code|, cx, g.control, Run(If(c, s1), cx, m, fuel))
    decreases fuel, StmtSize(If(c, s1)), 0
  {
    hide Reaches; hide After; hide Eval; hide GenB; hide SoundCond; hide Need; hide Unique; hide Target; hide Agree; hide Simulates;
    hide Placed;
    var g1 := GenB(c, false, n, n + 1, true);
    var g2 := GenS(s1, env, g1.next, g1.control);
    var pc1, pc2 := pc + |g1.code|, pc + |g1.code| + |g2.code|;
    if Eval(c, cx, m).Val? {
      PlacedSplit(prog, pc, g1.code, g2.code + [Label(n)]);
      Layout1(prog, pc1, g2.code, Label(n));
      TargetHere(prog, pc2, n);
      CondAt(c, false, n, n + 1, true, prog, pc, cx, st, m);
      var r := Eval(c, cx, m);
      if r.v == 0 {
        GetsLabel(prog, At(pc, st), pc2, cx, r.m);
        SimNormal(prog, env, At(pc, st), pc2 + 1, cx, r.m);
      } else {
        CondControl(c, false, n, n + 1, cx, m);
        var st1 :| Reaches(prog, At(pc, st), At(pc1, st1)) && After(cx, st, st1, r.m);
        AfterReady(cx, st, m, NeedS(If(c, s1)), st1, r.m);
        BeforeLabel(s1, env, g1.next, prog, pc1, cx, st1, r.m, fuel);
        Prepend(prog, env, At(pc, st), At(pc1, st1), pc2 + 1, cx, true, r.m, Run(s1, cx, r.m, fuel));
      }
    } else {
      SimBad(prog, env, At(pc, st), pc2 + 1, cx, true);
    }
  }

  /** The branch of an if-else that is compiled with a jump over the other one. */
  lemma EndJump(prog: seq<Instr>, env: Env, a: Config, e: nat, l: nat, q: nat, cx: Ctx, k: bool, f: Flow)
    requires Simulates(prog, env, a, e, cx, k, f)
    requires k ==> e < |prog| && prog[e] == Jmp(l) && Target(prog, l) == q && q < |prog| && prog[q].Label?
    ensures Simulates(prog, env, a, q + 1, cx, true, f)
  {
    hide Gets; hide Target; hide Returns;
    if f.Normal? {
      GetsJump(prog, a, e, l, cx, f.m);
      GetsLabel(prog, a, q, cx, f.m);
    }
  }

  lemma SimIfElse(c: Expr, s1: Stmt, s2: Stmt, env: Env, n: nat, prog: seq<Instr>, pc: nat, cx: Ctx, st: Cpu, m: Memory, fuel: nat)
    requires SoundS(IfElse(c, s1, s2)) && Unique(prog) && Placed(prog, pc, GenS(IfElse(c, s1, s2), env, n, true).code)
    requires Ready(cx, st, m, NeedS(IfElse(c, s1, s2)))
    ensures var g := GenS(IfElse(c, s1, s2), env, n, true);
            Simulates(prog, env, At(pc, st), pc + |g.code|, cx, g.control, Run(IfElse(c, s1, s2), cx, m, fuel))
    decreases fuel, StmtSize(IfElse(c, s1, s2)), 0
  {
    hide Reaches; hide After; hide Eval; hide GenB; hide SoundCond; hide Need; hide Unique; hide Target; hide Agree; hide Simulates;
    hide Placed; hide GenS; hide Run; hide SoundS; hide NeedS;
    IfElseParts(c, s1, s2, env, n, cx, m, fuel);
    var g := GenS(IfElse(c, s1, s2), env, n, true);
    var need := NeedS(IfElse(c, s1, s2));
    var g1 := GenB(c, false, n, n + 1, true);
    if Eval(c, cx, m).Val? {
      var r := Eval(c, cx, m);
      var pc1 := pc + |g1.code|;
      var rest := ElsePart(s1, s2, env, n, g1.next, g1.control);
      PlacedSplit(prog, pc, g1.code, rest.code);
      CondAt(c, false, n, n + 1, true, prog, pc, cx, st, m);
      if r.v == 0 {
        ElseTarget(s1, s2, env, n, g1.next, g1.control, prog, pc1);
        var st1 :| Reaches(prog, At(pc, st), At(Target(prog, n), st1)) && After(cx, st, st1, r.m);
        AfterReady(cx, st, m, need, st1, r.m);
        SimElse(s1, s2, env, n, g1.next, g1.control, prog, pc1, cx, st1, r.m, fuel);
        Prepend(prog, env, At(pc, st), At(Target(prog, n), st1), pc + |g.code|, cx, g.control, r.m, Run(s2, cx, r.m, fuel));
      } else {
        CondControl(c, false, n, n + 1, cx, m);
        var st1 :| Reaches(prog, At(pc, st), At(pc1, st1)) && After(cx, st, st1, r.m);
        AfterReady(cx, st, m, need, st1, r.m);
        SimThen(s1, s2, env, n, g1.next, prog, pc1, cx, st1, r.m, fuel);
        Prepend(prog, env, At(pc, st), At(pc1, st1), pc + |g.code|, cx, g.control, r.m, Run(s1, cx, r.m, fuel));
      }
    } else {
      SimBad(prog, env, At(pc, st), pc + |g.code|, cx, g.control);
    }
  }

  /** What follows the condition of an if-else. */
  function ElsePart(s1: Stmt, s2: Stmt, env: Env, n: nat, n1: nat, k: bool): Gen {
    var g2 := GenS(s1, env, n1, k);
    if g2.control then
      var l2 := g2.next;
      var g3 := GenS(s2, env, l2 + 1, true);
      Gen(g2.code + ([Jmp(l2), Label(n)] + (g3.code + [Label(l2)])), g3.next, true)
    else
      var g3 := GenS(s2, env, g2.next, true);
      Gen(g2.code + ([Label(n)] + g3.code), g3.next, g3.control)
  }

  lemma IfElseParts(c: Expr, s1: Stmt, s2: Stmt, env: Env, n: nat, cx: Ctx, m: Memory, fuel: nat)
    ensures var g := GenS(IfElse(c, s1, s2), env, n, true);
            var g1 := GenB(c, false, n, n + 1, true);
            var rest := ElsePart(s1, s2, env, n, g1.next, g1.control);
            g.code == g1.code + rest.code && g.control == rest.control
    ensures var r := Eval(c, cx, m);
            Run(IfElse(c, s1, s2), cx, m, fuel) ==
            if r.Fault? then Bad else if r.v != 0 then Run(s1, cx, r.m, fuel) else Run(s2, cx, r.m, fuel)
    ensures NeedS(IfElse(c, s1, s2)) == Max(Need(c), Max(NeedS(s1), NeedS(s2)))
    ensures SoundS(IfElse(c, s1, s2)) == (SoundCond(c) && SoundS(s1) && SoundS(s2))
    ensures StmtSize(IfElse(c, s1, s2)) == 1 + StmtSize(s1) + StmtSize(s2)
  {
    hide GenB; hide Eval; hide SoundCond; hide Need;
  }

  lemma ElseJump(s1: Stmt, s2: Stmt, env: Env, n: nat, n1: nat, k: bool)
    requires GenS(s1, env, n1, k).control
    ensures var g2 := GenS(s1, env, n1, k);
            var g3 := GenS(s2, env, g2.next + 1, true);
            var g := ElsePart(s1, s2, env, n, n1, k);
            g.code == g2.code + ([Jmp(g2.next), Label(n)] + (g3.code + [Label(g2.next)])) && g.control
  {
    hide GenS;
  }

  lemma ElsePlain(s1: Stmt, s2: Stmt, env: Env, n: nat, n1: nat, k: bool)
    requires !GenS(s1, env, n1, k).control
    ensures var g2 := GenS(s1, env, n1, k);
            var g3 := GenS(s2, env, g2.next, true);
            var g := ElsePart(s1, s2, env, n, n1, k);
            g.code == g2.code + ([Label(n)] + g3.code) && g.control == g3.control
  {
    hide GenS;
  }

  lemma ElseTarget(s1: Stmt, s2: Stmt, env: Env, n: nat, n1: nat, k: bool, prog: seq<Instr>, pc1: nat)
    requires Unique(prog) && Placed(prog, pc1, ElsePart(s1, s2, env, n, n1, k).code)
    ensures var g2 := GenS(s1, env, n1, k);
            var q := if g2.control then pc1 + |g2.code| + 1 else pc1 + |g2.code|;
            Target(prog, n) == q && q < |prog| && prog[q] == Label(n)
  {
    hide Unique; hide Target; hide Placed; hide GenS; hide ElsePart;
    var g2 := GenS(s1, env, n1, k);
    if g2.control {
      ElseJump(s1, s2, env, n, n1, k);
      JumpOverTarget(g2.code, GenS(s2, env, g2.next + 1, true).code, g2.next, n, prog, pc1);
    } else {
      ElsePlain(s1, s2, env, n, n1, k);
      PlainTarget(g2.code, GenS(s2, env, g2.next, true).code, n, prog, pc1);
    }
  }

  lemma JumpOverTarget(c2: seq<Instr>, c3: seq<Instr>, l2: nat, n: nat, prog: seq<Instr>, pc1: nat)
    requires Unique(prog) && Placed(prog, pc1, c2 + ([Jmp(l2), Label(n)] + (c3 + [Label(l2)])))
    ensures var q := pc1 + |c2| + 1; Target(prog, n) == q && q < |prog| && prog[q] == Label(n)
  {
    hide Unique; hide Target; hide Placed;
    PlacedSplit(prog, pc1, c2, [Jmp(l2), Label(n)] + (c3 + [Label(l2)]));
    LayoutMid(prog, pc1 + |c2|, Jmp(l2), Label(n), c3 + [Label(l2)]);
    TargetHere(prog, pc1 + |c2| + 1, n);
  }

  lemma PlainTarget(c2: seq<Instr>, c3: seq<Instr>, n: nat, prog: seq<Instr>, pc1: nat)
    requires Unique(prog) && Placed(prog, pc1, c2 + ([Label(n)] + c3))
    ensures var q := pc1 + |c2|; Target(prog, n) == q && q < |prog| && prog[q] == Label(n)
  {
    hide Unique; hide Target; hide Placed;
    PlacedSplit(prog, pc1, c2, [Label(n)] + c3);
    LayoutFirst(prog, pc1 + |c2|, Label(n), c3);
    TargetHere(prog, pc1 + |c2|, n);
  }

  lemma SimThen(s1: Stmt, s2: Stmt, env: Env, n: nat, n1: nat, prog: seq<Instr>, pc1: nat, cx: Ctx, st: Cpu, m: Memory, fuel: nat)
    requires SoundS(s1) && Unique(prog) && Placed(prog, pc1, ElsePart(s1, s2, env, n, n1, true).code)
    requires Ready(cx, st, m, NeedS(s1))
    ensures var rest := ElsePart(s1, s2, env, n, n1, true);
            Simulates(prog, env, At(pc1, st), pc1 + |rest.code|, cx, rest.control, Run(s1, cx, m, fuel))
    decreases fuel, StmtSize(s1), 2
  {
    hide Reaches; hide After; hide Unique; hide Target; hide Agree; hide Simulates; hide Placed; hide GenS; hide Run; hide SoundS; hide NeedS; hide ElsePart;
    var g2 := GenS(s1, env, n1, true);
    var f := Run(s1, cx, m, fuel);
    if g2.control {
      ElseJump(s1, s2, env, n, n1, true);
      var l2 := g2.next;
      var g3 := GenS(s2, env, l2 + 1, true);
      PlacedSplit(prog, pc1, g2.code, [Jmp(l2), Label(n)] + (g3.code + [Label(l2)]));
      LayoutMid(prog, pc1 + |g2.code|, Jmp(l2), Label(n), g3.code + [Label(l2)]);
      Layout1(prog, pc1 + |g2.code| + 2, g3.code, Label(l2));
      TargetHere(prog, pc1 + |g2.code| + 2 + |g3.code|, l2);
      StmtCorrect(s1, env, n1, prog, pc1, cx, st, m, fuel);
      EndJump(prog, env, At(pc1, st), pc1 + |g2.code|, l2, pc1 + |g2.code| + 2 + |g3.code|, cx, true, f);
    } else {
      ElsePlain(s1, s2, env, n, n1, true);
      var g3 := GenS(s2, env, g2.next, true);
      PlacedSplit(prog, pc1, g2.code, [Label(n)] + g3.code);
      StmtCorrect(s1, env, n1, prog, pc1, cx, st, m, fuel);
      NoFall(prog, env, At(pc1, st), pc1 + |g2.code|, cx, f);
      NotNormal(prog, env, At(pc1, st), pc1 + |g2.code|, pc1 + |g2.code| + 1 + |g3.code|, cx, false, g3.control, f);
    }
  }

  /** Where the flag is off, the statement did not end normally. */
  lemma NoFall(prog: seq<Instr>, env: Env, a: Config, e: nat, cx: Ctx, f: Flow)
    requires Simulates(prog, env, a, e, cx, false, f)
    ensures !f.Normal?
  {}

  lemma SimElse(s1: Stmt, s2: Stmt, env: Env, n: nat, n1: nat, k: bool, prog: seq<Instr>, pc1: nat, cx: Ctx, st: Cpu, m: Memory, fuel: nat)
    requires SoundS(s2) && Unique(prog) && Placed(prog, pc1, ElsePart(s1, s2, env, n, n1, k).code)
    requires Ready(cx, st, m, NeedS(s2))
    ensures var rest := ElsePart(s1, s2, env, n, n1, k);
            Simulates(prog, env, At(Target(prog, n), st), pc1 + |rest.code|, cx, rest.control, Run(s2, cx, m, fuel))
    decreases fuel, StmtSize(s2), 4
  {
    hide Reaches; hide After; hide Unique; hide Target; hide Agree; hide Simulates; hide Placed; hide GenS; hide Run; hide SoundS; hide NeedS; hide ElsePart;
    hide Step;
    if GenS(s1, env, n1, k).control { SimElseJumped(s1, s2, env, n, n1, k, prog, pc1, cx, st, m, fuel); }
    else { SimElsePlain(s1, s2, env, n, n1, k, prog, pc1, cx, st, m, fuel); }
  }

  /** A label and then a statement. */
  lemma AfterLabel(s: Stmt, env: Env, n: nat, prog: seq<Instr>, q: nat, cx: Ctx, st: Cpu, m: Memory, fuel: nat)
    requires SoundS(s) && Unique(prog) && Ready(cx, st, m, NeedS(s))
    requires q < |prog| && prog[q].Label? && Placed(prog, q + 1, GenS(s, env, n, true).code)
    ensures var g := GenS(s, env, n, true);
            Simulates(prog, env, At(q, st), q + 1 + |g.code|, cx, g.control, Run(s, cx, m, fuel))
    decreases fuel, StmtSize(s), 2
  {
    hide Reaches; hide After; hide Unique; hide Target; hide Agree; hide Simulates; hide Placed; hide GenS; hide Run; hide SoundS; hide NeedS;
    hide Step;
    LabelStep(prog, q, st);
    ReachesStep(prog, At(q, st));
    AfterRefl(cx, st, m);
    var g, f := GenS(s, env, n, true), Run(s, cx, m, fuel);
    StmtCorrect(s, env, n, prog, q + 1, cx, st, m, fuel);
    Prepend(prog, env, At(q, st), At(q + 1, st), q + 1 + |g.code|, cx, g.control, m, f);
  }

  lemma SimElseJumped(s1: Stmt, s2: Stmt, env: Env, n: nat, n1: nat, k: bool, prog: seq<Instr>, pc1: nat, cx: Ctx, st: Cpu, m: Memory, fuel: nat)
    requires SoundS(s2) && Unique(prog) && Placed(prog, pc1, ElsePart(s1, s2, env, n, n1, k).code)
    requires Ready(cx, st, m, NeedS(s2))
    requires GenS(s1, env, n1, k).control
    ensures var rest := ElsePart(s1, s2, env, n, n1, k);
            Simulates(prog, env, At(Target(prog, n), st), pc1 + |rest.code|, cx, rest.control, Run(s2, cx, m, fuel))
    decreases fuel, StmtSize(s2), 3
  {
    hide Reaches; hide After; hide Unique; hide Target; hide Agree; hide Simulates; hide Placed; hide GenS; hide Run; hide SoundS; hide NeedS; hide ElsePart;
    hide Step;
    ElseTarget(s1, s2, env, n, n1, k, prog, pc1);
    var q := Target(prog, n);
    var g2 := GenS(s1, env, n1, k);
    ElseJump(s1, s2, env, n, n1, k);
    var l2 := g2.next;
    var g3 := GenS(s2, env, l2 + 1, true);
    PlacedSplit(prog, pc1, g2.code, [Jmp(l2), Label(n)] + (g3.code + [Label(l2)]));
    LayoutMid(prog, pc1 + |g2.code|, Jmp(l2), Label(n), g3.code + [Label(l2)]);
    Layout1(prog, q + 1, g3.code, Label(l2));
    AfterLabel(s2, env, l2 + 1, prog, q, cx, st, m, fuel);
    EndLabel(prog, env, At(q, st), q + 1 + |g3.code|, cx, g3.control, Run(s2, cx, m, fuel));
  }

  lemma SimElsePlain(s1: Stmt, s2: Stmt, env: Env, n: nat, n1: nat, k: bool, prog: seq<Instr>, pc1: nat, cx: Ctx, st: Cpu, m: Memory, fuel: nat)
    requires SoundS(s2) && Unique(prog) && Placed(prog, pc1, ElsePart(s1, s2, env, n, n1, k).code)
    requires Ready(cx, st, m, NeedS(s2))
    requires !GenS(s1, env, n1, k).control
    ensures var rest := ElsePart(s1, s2, env, n, n1, k);
            Simulates(prog, env, At(Target(prog, n), st), pc1 + |rest.code|, cx, rest.control, Run(s2, cx, m, fuel))
    decreases fuel, StmtSize(s2), 3
  {
    hide Reaches; hide After; hide Unique; hide Target; hide Agree; hide Simulates; hide Placed; hide GenS; hide Run; hide SoundS; hide NeedS; hide ElsePart;
    hide Step;
    ElseTarget(s1, s2, env, n, n1, k, prog, pc1);
    var q := Target(prog, n);
    var g2 := GenS(s1, env, n1, k);
    ElsePlain(s1, s2, env, n, n1, k);
    var g3 := GenS(s2, env, g2.next, true);
    PlacedSplit(prog, pc1, g2.code, [Label(n)] + g3.code);
    LayoutFirst(prog, q, Label(n), g3.code);
    AfterLabel(s2, env, g2.next, prog, q, cx, st, m, fuel);
  }

  // ---------- loops ----------

  /** How a loop body's end looks to the loop: the point where the loop goes on, or the end
      of the loop. */
  lemma BodyGoesOn(prog: seq<Instr>, env: Env, a: Config, e: nat, cx: Ctx, k: bool, f: Flow)
    requires Simulates(prog, env, a, e, cx, k, f) && GoesOn(f)
    ensures Gets(prog, a, if f.Normal? then e else Target(prog, env.cnt), cx, f.m)
  {
    hide Gets; hide Target;
  }

  lemma BodyEnds(prog: seq<Instr>, inner: Env, env: Env, a: Config, e: nat, out: nat, cx: Ctx, k: bool, f: Flow)
    requires Simulates(prog, inner, a, e, cx, k, f) && !GoesOn(f) && inner.locals == env.locals
    requires Target(prog, inner.brk) == out && out < |prog| && prog[out].Label?
    ensures Simulates(prog, env, a, out + 1, cx, true, Ended(f))
  {
    hide Gets; hide Target; hide Returns;
    if f.Brk? { GetsLabel(prog, a, out, cx, f.m); }
  }

  /** Where the pieces of a while loop stand. */
  ghost predicate WhileLayout(prog: seq<Instr>, pc: nat, c1: seq<Instr>, c2: seq<Instr>, n: nat) {
    && Placed(prog, pc + 1, c1) && Placed(prog, pc + 1 + |c1|, c2)
    && pc + |c1| + |c2| + 2 < |prog|
    && prog[pc] == Label(n + 1) && Target(prog, n + 1) == pc
    && prog[pc + 1 + |c1| + |c2|] == Jmp(n + 1)
    && prog[pc + |c1| + |c2| + 2] == Label(n) && Target(prog, n) == pc + |c1| + |c2| + 2
  }

  lemma WhilePlaced(prog: seq<Instr>, pc: nat, c1: seq<Instr>, c2: seq<Instr>, n: nat)
    requires Unique(prog) && Placed(prog, pc, [Label(n + 1)] + (c1 + (c2 + [Jmp(n + 1), Label(n)])))
    ensures WhileLayout(prog, pc, c1, c2, n)
  {
    hide Unique; hide Target; hide Placed;
    LayoutFirst(prog, pc, Label(n + 1), c1 + (c2 + [Jmp(n + 1), Label(n)]));
    PlacedSplit(prog, pc + 1, c1, c2 + [Jmp(n + 1), Label(n)]);
    Layout2(prog, pc + 1 + |c1|, c2, Jmp(n + 1), Label(n));
    TargetHere(prog, pc, n + 1);
    TargetHere(prog, pc + |c1| + |c2| + 2, n);
  }

  lemma WhileSim(c: Expr, s1: Stmt, env: Env, n: nat, prog: seq<Instr>, pc: nat, cx: Ctx, st: Cpu, m: Memory, fuel: nat)
    requires SoundCond(c) && SoundS(s1) && Unique(prog) && Ready(cx, st, m, Max(Need(c), NeedS(s1)))
    requires var g1 := GenB(c, false, n, n + 2, true);
             var g2 := GenS(s1, env.(brk := n, cnt := n + 1), g1.next, g1.control);
             WhileLayout(prog, pc, g1.code, g2.code, n)
    ensures var g1 := GenB(c, false, n, n + 2, true);
            var g2 := GenS(s1, env.(brk := n, cnt := n + 1), g1.next, g1.control);
            Simulates(prog, env, At(pc, st), pc + |g1.code| + |g2.code| + 3, cx, true, RunWhile(c, s1, cx, m, fuel))
    decreases fuel, StmtSize(s1), 3
  {
    hide Reaches; hide After; hide Eval; hide GenB; hide GenS; hide SoundCond; hide SoundS; hide Need; hide NeedS; hide Unique; hide Target;
    hide Agree; hide Simulates; hide Placed; hide Step; hide Run;
    var need := Max(Need(c), NeedS(s1));
    var inner := env.(brk := n, cnt := n + 1);
    var g1 := GenB(c, false, n, n + 2, true);
    var g2 := GenS(s1, inner, g1.next, g1.control);
    var out := pc + |g1.code| + |g2.code| + 2;
    var r := Eval(c, cx, m);
    if r.Fault? {
      SimBad(prog, env, At(pc, st), out + 1, cx, true);
    } else {
      GetsHere(prog, pc, cx, st, m);
      GetsLabel(prog, At(pc, st), pc, cx, m);
      var st0 :| Reaches(prog, At(pc, st), At(pc + 1, st0)) && After(cx, st, st0, m);
      AfterReady(cx, st, m, need, st0, m);
      CondAt(c, false, n, n + 2, true, prog, pc + 1, cx, st0, m);
      if r.v == 0 {
        GetsLabel(prog, At(pc + 1, st0), out, cx, r.m);
        SimNormal(prog, env, At(pc + 1, st0), out + 1, cx, r.m);
        Prepend(prog, env, At(pc, st), At(pc + 1, st0), out + 1, cx, true, m, Normal(r.m));
      } else {
        CondControl(c, false, n, n + 2, cx, m);
        GetsFirst(prog, At(pc, st), At(pc + 1, st0), pc + 1 + |g1.code|, cx, m, r.m);
        var st1 :| Reaches(prog, At(pc, st), At(pc + 1 + |g1.code|, st1)) && After(cx, st, st1, r.m);
        AfterReady(cx, st, m, need, st1, r.m);
        WhileBody(c, s1, env, n, prog, pc, cx, st1, r.m, fuel);
        PrependAgain(prog, env, At(pc, st), At(pc + 1 + |g1.code|, st1), out + 1, cx, true, r.m, WhileRest(c, s1, cx, r.m, fuel));
      }
    }
  }

  /** What a while loop does from its body on. */
  function WhileRest(c: Expr, s1: Stmt, cx: Ctx, m: Memory, fuel: nat): Flow {
    var f := Run(s1, cx, m, fuel);
    if !GoesOn(f) then Ended(f) else if fuel == 0 then Timeout(0) else RunWhile(c, s1, cx, f.m, fuel - 1)
  }

  /** From the body of the loop on. */
  lemma WhileBody(c: Expr, s1: Stmt, env: Env, n: nat, prog: seq<Instr>, pc: nat, cx: Ctx, st: Cpu, m: Memory, fuel: nat)
    requires SoundCond(c) && SoundS(s1) && Unique(prog) && Ready(cx, st, m, Max(Need(c), NeedS(s1)))
    requires var g1 := GenB(c, false, n, n + 2, true);
             var g2 := GenS(s1, env.(brk := n, cnt := n + 1), g1.next, g1.control);
             WhileLayout(prog, pc, g1.code, g2.code, n) && g1.control
    ensures var g1 := GenB(c, false, n, n + 2, true);
            var g2 := GenS(s1, env.(brk := n, cnt := n + 1), g1.next, g1.control);
            Simulates(prog, env, At(pc + 1 + |g1.code|, st), pc + |g1.code| + |g2.code| + 3, cx, true, WhileRest(c, s1, cx, m, fuel))
    decreases fuel, StmtSize(s1), 2
  {
    hide Reaches; hide After; hide Eval; hide GenB; hide GenS; hide SoundCond; hide SoundS; hide Need; hide NeedS; hide Unique; hide Target;
    hide Agree; hide Simulates; hide Placed; hide Step; hide Run; hide RunWhile;
    var need := Max(Need(c), NeedS(s1));
    var inner := env.(brk := n, cnt := n + 1);
    var g1 := GenB(c, false, n, n + 2, true);
    var g2 := GenS(s1, inner, g1.next, g1.control);
    var pc2, out := pc + 1 + |g1.code|, pc + |g1.code| + |g2.code| + 2;
    var a := At(pc2, st);
    var f := Run(s1, cx, m, fuel);
    StmtCorrect(s1, inner, g1.next, prog, pc2, cx, st, m, fuel);
    if !GoesOn(f) {
      BodyEnds(prog, inner, env, a, pc2 + |g2.code|, out, cx, g2.control, f);
    } else {
      BodyGoesOn(prog, inner, a, pc2 + |g2.code|, cx, g2.control, f);
      if f.Normal? { GetsJump(prog, a, pc2 + |g2.code|, n + 1, cx, f.m); }
      var st2 :| Reaches(prog, a, At(pc, st2)) && After(cx, st, st2, f.m);
      if fuel == 0 {
        LoopAgain(prog, env, a, At(pc, st2), out + 1, cx);
      } else {
        AfterReady(cx, st, m, need, st2, f.m);
        WhileSim(c, s1, env, n, prog, pc, cx, st2, f.m, fuel - 1);
        Prepend(prog, env, a, At(pc, st2), out + 1, cx, true, f.m, RunWhile(c, s1, cx, f.m, fuel - 1));
      }
    }
  }

  lemma NullSim(c: Expr, env: Env, n: nat, prog: seq<Instr>, pc: nat, cx: Ctx, st: Cpu, m: Memory, fuel: nat)
    requires SoundCond(c) && Unique(prog) && Ready(cx, st, m, Need(c))
    requires Placed(prog, pc, GenS(WhileNull(c), env, n, true).code)
    ensures Simulates(prog, env, At(pc, st), pc + |GenS(WhileNull(c), env, n, true).code|, cx, true, RunWhile(c, Skip, cx, m, fuel))
    decreases fuel, 2, 1
  {
    hide Reaches; hide After; hide Eval; hide GenB; hide SoundCond; hide Need;
    hide Unique; hide Target; hide Agree; hide Simulates; hide Placed; hide Step;
    var g1 := GenB(c, true, n + 1, n + 2, true);
    var out := pc + 1 + |g1.code|;
    LayoutFirst(prog, pc, Label(n + 1), g1.code + [Label(n)]);
    Layout1(prog, pc + 1, g1.code, Label(n));
    TargetHere(prog, pc, n + 1);
    var r := Eval(c, cx, m);
    if r.Fault? {
      SimBad(prog, env, At(pc, st), out + 1, cx, true);
    } else {
      GetsHere(prog, pc, cx, st, m);
      GetsLabel(prog, At(pc, st), pc, cx, m);
      var st0 :| Reaches(prog, At(pc, st), At(pc + 1, st0)) && After(cx, st, st0, m);
      AfterReady(cx, st, m, Need(c), st0, m);
      CondAt(c, true, n + 1, n + 2, true, prog, pc + 1, cx, st0, m);
      var a0 := At(pc + 1, st0);
      if r.v == 0 {
        GetsFirst(prog, At(pc, st), a0, out, cx, m, r.m);
        GetsLabel(prog, At(pc, st), out, cx, r.m);
        SimNormal(prog, env, At(pc, st), out + 1, cx, r.m);
      } else {
        var st1 :| Reaches(prog, a0, At(pc, st1)) && After(cx, st0, st1, r.m);
        assert Run(Skip, cx, r.m, fuel) == Normal(r.m);
        if fuel == 0 {
          LoopAgain(prog, env, a0, At(pc, st1), out + 1, cx);
        } else {
          AfterReady(cx, st0, m, Need(c), st1, r.m);
          NullSim(c, env, n, prog, pc, cx, st1, r.m, fuel - 1);
          Prepend(prog, env, a0, At(pc, st1), out + 1, cx, true, r.m, RunWhile(c, Skip, cx, r.m, fuel - 1));
        }
        PrependAgain(prog, env, At(pc, st), a0, out + 1, cx, true, m, WhileRest(c, Skip, cx, r.m, fuel));
      }
    }
  }

  /** Where the pieces of a do loop stand. */
  ghost predicate DoLayout(prog: seq<Instr>, pc: nat, c1: seq<Instr>, c2: seq<Instr>, n: nat) {
    && Placed(prog, pc + 1, c1) && Placed(prog, pc + 2 + |c1|, c2)
    && pc + |c1| + |c2| + 2 < |prog|
    && prog[pc] == Label(n + 2) && Target(prog, n + 2) == pc
    && prog[pc + 1 + |c1|] == Label(n + 1) && Target(prog, n + 1) == pc + 1 + |c1|
    && prog[pc + |c1| + |c2| + 2] == Label(n) && Target(prog, n) == pc + |c1| + |c2| + 2
  }

  lemma DoPlaced(prog: seq<Instr>, pc: nat, c1: seq<Instr>, c2: seq<Instr>, n: nat)
    requires Unique(prog) && Placed(prog, pc, [Label(n + 2)] + (c1 + ([Label(n + 1)] + (c2 + [Label(n)]))))
    ensures DoLayout(prog, pc, c1, c2, n)
  {
    hide Unique; hide Target; hide Placed;
    LayoutFirst(prog, pc, Label(n + 2), c1 + ([Label(n + 1)] + (c2 + [Label(n)])));
    PlacedSplit(prog, pc + 1, c1, [Label(n + 1)] + (c2 + [Label(n)]));
    LayoutFirst(prog, pc + 1 + |c1|, Label(n + 1), c2 + [Label(n)]);
    Layout1(prog, pc + 2 + |c1|, c2, Label(n));
    TargetHere(prog, pc, n + 2);
    TargetHere(prog, pc + 1 + |c1|, n + 1);
    TargetHere(prog, pc + |c1| + |c2| + 2, n);
  }

  lemma DoSim(s1: Stmt, c: Expr, env: Env, n: nat, prog: seq<Instr>, pc: nat, cx: Ctx, st: Cpu, m: Memory, fuel: nat)
    requires SoundCond(c) && SoundS(s1) && Unique(prog) && Ready(cx, st, m, Max(Need(c), NeedS(s1)))
    requires var g1 := GenS(s1, env.(brk := n, cnt := n + 1), n + 3, true);
             DoLayout(prog, pc, g1.code, GenB(c, true, n + 2, g1.next, true).code, n) && n + 3 <= g1.next
    ensures var g1 := GenS(s1, env.(brk := n, cnt := n + 1), n + 3, true);
            var g2 := GenB(c, true, n + 2, g1.next, true);
            Simulates(prog, env, At(pc, st), pc + |g1.code| + |g2.code| + 3, cx, true, RunDo(s1, c, cx, m, fuel))
    decreases fuel, StmtSize(s1), 3
  {
    hide Reaches; hide After; hide Eval; hide GenB; hide GenE; hide GenS; hide SoundCond; hide Sound; hide SoundS; hide Need; hide NeedS;
    hide Unique; hide Target; hide Agree; hide Simulates; hide Placed; hide Step; hide Run;
    var need := Max(Need(c), NeedS(s1));
    var inner := env.(brk := n, cnt := n + 1);
    var g1 := GenS(s1, inner, n + 3, true);
    var g2 := GenB(c, true, n + 2, g1.next, true);
    var a := At(pc, st);
    var mid, out := pc + 1 + |g1.code|, pc + |g1.code| + |g2.code| + 2;
    GetsHere(prog, pc, cx, st, m);
    GetsLabel(prog, a, pc, cx, m);
    var st0 :| Reaches(prog, a, At(pc + 1, st0)) && After(cx, st, st0, m);
    AfterReady(cx, st, m, need, st0, m);
    StmtCorrect(s1, inner, n + 3, prog, pc + 1, cx, st0, m, fuel);
    var f := Run(s1, cx, m, fuel);
    if !GoesOn(f) {
      BodyEnds(prog, inner, env, At(pc + 1, st0), mid, out, cx, g1.control, f);
      PrependAgain(prog, env, a, At(pc + 1, st0), out + 1, cx, true, m, Ended(f));
    } else {
      BodyGoesOn(prog, inner, At(pc + 1, st0), mid, cx, g1.control, f);
      GetsFirst(prog, a, At(pc + 1, st0), mid, cx, m, f.m);
      var st1 :| Reaches(prog, a, At(mid, st1)) && After(cx, st, st1, f.m);
      AfterReady(cx, st, m, need, st1, f.m);
      DoTail(s1, c, env, n, prog, pc, cx, st1, f.m, fuel);
      PrependAgain(prog, env, a, At(mid, st1), out + 1, cx, true, f.m, DoRest(s1, c, cx, f.m, fuel));
    }
  }

  /** What a do loop does from its condition on. */
  function DoRest(s1: Stmt, c: Expr, cx: Ctx, m: Memory, fuel: nat): Flow {
    var r := Eval(c, cx, m);
    if r.Fault? then Bad else if r.v == 0 then Normal(r.m)
    else if fuel == 0 then Timeout(0) else RunDo(s1, c, cx, r.m, fuel - 1)
  }

  /** From the condition of a do loop on. */
  lemma DoTail(s1: Stmt, c: Expr, env: Env, n: nat, prog: seq<Instr>, pc: nat, cx: Ctx, st: Cpu, m: Memory, fuel: nat)
    requires SoundCond(c) && SoundS(s1) && Unique(prog) && Ready(cx, st, m, Max(Need(c), NeedS(s1)))
    requires var g1 := GenS(s1, env.(brk := n, cnt := n + 1), n + 3, true);
             DoLayout(prog, pc, g1.code, GenB(c, true, n + 2, g1.next, true).code, n) && n + 3 <= g1.next
    ensures var g1 := GenS(s1, env.(brk := n, cnt := n + 1), n + 3, true);
            var g2 := GenB(c, true, n + 2, g1.next, true);
            Simulates(prog, env, At(pc + 1 + |g1.code|, st), pc + |g1.code| + |g2.code| + 3, cx, true, DoRest(s1, c, cx, m, fuel))
    decreases fuel, StmtSize(s1), 2
  {
    hide Reaches; hide After; hide Eval; hide GenB; hide GenE; hide GenS; hide SoundCond; hide Sound; hide SoundS; hide Need; hide NeedS;
    hide Unique; hide Target; hide Agree; hide Simulates; hide Placed; hide Step; hide Run;
    hide RunDo;
    var need := Max(Need(c), NeedS(s1));
    var g1 := GenS(s1, env.(brk := n, cnt := n + 1), n + 3, true);
    var g2 := GenB(c, true, n + 2, g1.next, true);
    var mid, out := pc + 1 + |g1.code|, pc + |g1.code| + |g2.code| + 2;
    var a := At(mid, st);
    var r := Eval(c, cx, m);
    SimBad(prog, env, a, out + 1, cx, true);
    if r.Val? {
      GetsHere(prog, mid, cx, st, m);
      GetsLabel(prog, a, mid, cx, m);
      var st0 :| Reaches(prog, a, At(mid + 1, st0)) && After(cx, st, st0, m);
      AfterReady(cx, st, m, need, st0, m);
      CondAt(c, true, n + 2, g1.next, true, prog, mid + 1, cx, st0, m);
      GetsFirst(prog, a, At(mid + 1, st0), if r.v != 0 then pc else out, cx, m, r.m);
      if r.v == 0 {
        GetsLabel(prog, a, out, cx, r.m);
        SimNormal(prog, env, a, out + 1, cx, r.m);
      } else {
        var st1 :| Reaches(prog, a, At(pc, st1)) && After(cx, st, st1, r.m);
        if fuel == 0 {
          LoopAgain(prog, env, a, At(pc, st1), out + 1, cx);
        } else {
          AfterReady(cx, st, m, need, st1, r.m);
          DoSim(s1, c, env, n, prog, pc, cx, st1, r.m, fuel - 1);
          Prepend(prog, env, a, At(pc, st1), out + 1, cx, true, r.m, RunDo(s1, c, cx, r.m, fuel - 1));
        }
      }
    }
  }

  // ---------- for ----------

  /** The pieces of a for loop after its initial expression; l is the head label. */
  datatype ForCode = ForCode(c1: Gen, c2: Gen, c3: Gen, inner: Env, code: seq<Instr>)

  function ForGen(cond: Opt, step: Opt, s1: Stmt, env: Env, n: nat, l: nat): ForCode {
    var g1 := if cond.Some? then GenB(cond.e, false, n, l + 1, true) else Gen([], l + 1, true);
    if step.None? then
      var inner := env.(brk := n, cnt := l);
      var g2 := GenS(s1, inner, g1.next, g1.control);
      ForCode(g1, g2, Gen([], g2.next, true), inner,
              [Label(l)] + (g1.code + (g2.code + [Jmp(l), Label(n)])))
    else
      var lc := g1.next;
      var inner := env.(brk := n, cnt := lc);
      var g2 := GenS(s1, inner, lc + 1, g1.control);
      var g3 := GenE(step.e, g2.next, true);
      ForCode(g1, g2, g3, inner,
              [Label(l)] + (g1.code + (g2.code + ([Label(lc)] + (g3.code + [Jmp(l), Label(n)])))))
  }

  /** Where they stand; `stepAt` is where the loop goes on after its body. */
  ghost predicate ForLayout(prog: seq<Instr>, pc: nat, fc: ForCode, step: Opt, n: nat, l: nat) {
    var bodyAt := pc + 1 + |fc.c1.code|;
    var stepAt := bodyAt + |fc.c2.code|;
    var jumpAt := if step.None? then stepAt else stepAt + 1 + |fc.c3.code|;
    && |fc.code| == jumpAt + 2 - pc
    && Placed(prog, pc + 1, fc.c1.code) && Placed(prog, bodyAt, fc.c2.code)
    && jumpAt + 1 < |prog|
    && prog[pc] == Label(l) && Target(prog, l) == pc
    && prog[jumpAt] == Jmp(l) && prog[jumpAt + 1] == Label(n) && Target(prog, n) == jumpAt + 1
    && (if step.None? then fc.inner.cnt == l
        else prog[stepAt] == Label(fc.inner.cnt) && Target(prog, fc.inner.cnt) == stepAt && Placed(prog, stepAt + 1, fc.c3.code))
  }

  lemma ForPlaced(cond: Opt, step: Opt, s1: Stmt, env: Env, n: nat, l: nat, prog: seq<Instr>, pc: nat)
    requires Unique(prog) && Placed(prog, pc, ForGen(cond, step, s1, env, n, l).code)
    ensures ForLayout(prog, pc, ForGen(cond, step, s1, env, n, l), step, n, l)
  {
    hide Unique; hide Target; hide Placed; hide GenS; hide GenB; hide GenE;
    var fc := ForGen(cond, step, s1, env, n, l);
    if step.None? {
      ForPlaced0(fc.c1.code, fc.c2.code, n, l, prog, pc);
    } else {
      ForPlaced1(fc.c1.code, fc.c2.code, fc.c3.code, n, l, fc.inner.cnt, prog, pc);
    }
  }

  lemma ForPlaced0(c1: seq<Instr>, c2: seq<Instr>, n: nat, l: nat, prog: seq<Instr>, pc: nat)
    requires Unique(prog) && Placed(prog, pc, [Label(l)] + (c1 + (c2 + [Jmp(l), Label(n)])))
    ensures var q := pc + 1 + |c1| + |c2|;
            && Placed(prog, pc + 1, c1) && Placed(prog, pc + 1 + |c1|, c2) && q + 1 < |prog|
            && prog[pc] == Label(l) && Target(prog, l) == pc
            && prog[q] == Jmp(l) && prog[q + 1] == Label(n) && Target(prog, n) == q + 1
  {
    hide Unique; hide Target; hide Placed;
    LayoutFirst(prog, pc, Label(l), c1 + (c2 + [Jmp(l), Label(n)]));
    PlacedSplit(prog, pc + 1, c1, c2 + [Jmp(l), Label(n)]);
    Layout2(prog, pc + 1 + |c1|, c2, Jmp(l), Label(n));
    TargetHere(prog, pc, l);
    TargetHere(prog, pc + 1 + |c1| + |c2| + 1, n);
  }

  lemma ForPlaced1(c1: seq<Instr>, c2: seq<Instr>, c3: seq<Instr>, n: nat, l: nat, lc: nat, prog: seq<Instr>, pc: nat)
    requires Unique(prog) && Placed(prog, pc, [Label(l)] + (c1 + (c2 + ([Label(lc)] + (c3 + [Jmp(l), Label(n)])))))
    ensures var q := pc + 1 + |c1| + |c2|;
            var j := q + 1 + |c3|;
            && Placed(prog, pc + 1, c1) && Placed(prog, pc + 1 + |c1|, c2) && Placed(prog, q + 1, c3) && j + 1 < |prog|
            && prog[pc] == Label(l) && Target(prog, l) == pc
            && prog[q] == Label(lc) && Target(prog, lc) == q
            && prog[j] == Jmp(l) && prog[j + 1] == Label(n) && Target(prog, n) == j + 1
  {
    hide Unique; hide Target; hide Placed;
    var q := pc + 1 + |c1| + |c2|;
    LayoutFirst(prog, pc, Label(l), c1 + (c2 + ([Label(lc)] + (c3 + [Jmp(l), Label(n)]))));
    PlacedSplit(prog, pc + 1, c1, c2 + ([Label(lc)] + (c3 + [Jmp(l), Label(n)])));
    PlacedSplit(prog, pc + 1 + |c1|, c2, [Label(lc)] + (c3 + [Jmp(l), Label(n)]));
    LayoutFirst(prog, q, Label(lc), c3 + [Jmp(l), Label(n)]);
    Layout2(prog, q + 1, c3, Jmp(l), Label(n));
    TargetHere(prog, pc, l);
    TargetHere(prog, q, lc);
    TargetHere(prog, q + 2 + |c3|, n);
  }

  lemma OptCondAt(cond: Opt, n: nat, l: nat, prog: seq<Instr>, pc: nat, cx: Ctx, st: Cpu, m: Memory)
    requires (cond.Some? ==> SoundCond(cond.e)) && n <= l && Unique(prog)
    requires var g := if cond.Some? then GenB(cond.e, false, n, l + 1, true) else Gen([], l + 1, true);
             Placed(prog, pc, g.code)
    requires Ready(cx, st, m, NeedOpt(cond)) && EvalOpt(cond, cx, m).Val?
    ensures var g := if cond.Some? then GenB(cond.e, false, n, l + 1, true) else Gen([], l + 1, true);
            var r := EvalOpt(cond, cx, m);
            && Gets(prog, At(pc, st), if r.v == 0 then Target(prog, n) else pc + |g.code|, cx, r.m)
            && (r.v != 0 ==> g.control)
  {
    hide Eval; hide GenB; hide Gets; hide Unique; hide Placed; hide Target; hide Agree;
    if cond.Some? {
      CondAt(cond.e, false, n, l + 1, true, prog, pc, cx, st, m);
      if Eval(cond.e, cx, m).v != 0 { CondControl(cond.e, false, n, l + 1, cx, m); }
    } else {
      GetsHere(prog, pc, cx, st, m);
    }
  }

  function ForNeed(cond: Opt, step: Opt, s1: Stmt): nat { Max(NeedOpt(cond), Max(NeedOpt(step), NeedS(s1))) }

  predicate SoundFor(cond: Opt, step: Opt, s1: Stmt) {
    (cond.Some? ==> SoundCond(cond.e)) && SoundOpt(step) && SoundS(s1)
  }

  /** The head of a for loop: to the body, or past the end. */
  lemma ForHead(cond: Opt, step: Opt, s1: Stmt, env: Env, n: nat, l: nat, prog: seq<Instr>, pc: nat, cx: Ctx, st: Cpu, m: Memory)
    requires SoundFor(cond, step, s1) && n <= l && Unique(prog) && Ready(cx, st, m, ForNeed(cond, step, s1))
    requires ForLayout(prog, pc, ForGen(cond, step, s1, env, n, l), step, n, l)
    requires EvalOpt(cond, cx, m).Val?
    ensures var fc, r := ForGen(cond, step, s1, env, n, l), EvalOpt(cond, cx, m);
            && Gets(prog, At(pc, st), if r.v == 0 then pc + |fc.code| else pc + 1 + |fc.c1.code|, cx, r.m)
            && (r.v != 0 ==> fc.c1.control)
  {
    hide Reaches; hide After; hide Eval; hide GenB; hide GenE; hide GenS; hide SoundCond; hide Sound; hide SoundS; hide Need; hide NeedS;
    hide Unique; hide Target; hide Agree; hide Placed; hide Step; hide EvalOpt; hide NeedOpt;
    var fc, r := ForGen(cond, step, s1, env, n, l), EvalOpt(cond, cx, m);
    var a, end := At(pc, st), pc + |fc.code|;
    GetsHere(prog, pc, cx, st, m);
    GetsLabel(prog, a, pc, cx, m);
    var st0 :| Reaches(prog, a, At(pc + 1, st0)) && After(cx, st, st0, m);
    AfterReady(cx, st, m, ForNeed(cond, step, s1), st0, m);
    OptCondAt(cond, n, l, prog, pc + 1, cx, st0, m);
    GetsFirst(prog, a, At(pc + 1, st0), if r.v == 0 then end - 1 else pc + 1 + |fc.c1.code|, cx, m, r.m);
    if r.v == 0 { GetsLabel(prog, a, end - 1, cx, r.m); }
  }

  lemma ForSim(cond: Opt, step: Opt, s1: Stmt, env: Env, n: nat, l: nat, prog: seq<Instr>, pc: nat, cx: Ctx, st: Cpu, m: Memory, fuel: nat)
    requires SoundFor(cond, step, s1) && n <= l && Unique(prog) && Ready(cx, st, m, ForNeed(cond, step, s1))
    requires ForLayout(prog, pc, ForGen(cond, step, s1, env, n, l), step, n, l)
    ensures Simulates(prog, env, At(pc, st), pc + |ForGen(cond, step, s1, env, n, l).code|, cx, true, RunFor(cond, step, s1, cx, m, fuel))
    decreases fuel, StmtSize(s1), 4
  {
    hide Reaches; hide After; hide Eval; hide GenB; hide GenE; hide GenS; hide SoundCond; hide Sound; hide SoundS; hide Need; hide NeedS;
    hide Unique; hide Target; hide Agree; hide Simulates; hide Placed; hide Step; hide Run;
    hide EvalOpt; hide NeedOpt;
    var fc := ForGen(cond, step, s1, env, n, l);
    var need := ForNeed(cond, step, s1);
    var a, end := At(pc, st), pc + |fc.code|;
    var r := EvalOpt(cond, cx, m);
    SimBad(prog, env, a, end, cx, true);
    if r.Val? {
      ForHead(cond, step, s1, env, n, l, prog, pc, cx, st, m);
      if r.v == 0 {
        SimNormal(prog, env, a, end, cx, r.m);
      } else {
        var st1 :| Reaches(prog, a, At(pc + 1 + |fc.c1.code|, st1)) && After(cx, st, st1, r.m);
        AfterReady(cx, st, m, need, st1, r.m);
        ForBody(cond, step, s1, env, n, l, prog, pc, cx, st1, r.m, fuel);
        PrependAgain(prog, env, a, At(pc + 1 + |fc.c1.code|, st1), end, cx, true, r.m, ForRest(cond, step, s1, cx, r.m, fuel));
      }
    }
  }

  /** What a for loop does from its body on. */
  function ForRest(cond: Opt, step: Opt, s1: Stmt, cx: Ctx, m: Memory, fuel: nat): Flow {
    var f := Run(s1, cx, m, fuel);
    if !GoesOn(f) then Ended(f) else ForNext(cond, step, s1, cx, f.m, fuel)
  }

  /** From its step on. */
  function ForNext(cond: Opt, step: Opt, s1: Stmt, cx: Ctx, m: Memory, fuel: nat): Flow {
    var r := EvalOpt(step, cx, m);
    if r.Fault? then Bad else if fuel == 0 then Timeout(0) else RunFor(cond, step, s1, cx, r.m, fuel - 1)
  }

  lemma ForBody(cond: Opt, step: Opt, s1: Stmt, env: Env, n: nat, l: nat, prog: seq<Instr>, pc: nat, cx: Ctx, st: Cpu, m: Memory, fuel: nat)
    requires SoundFor(cond, step, s1) && n <= l && Unique(prog) && Ready(cx, st, m, ForNeed(cond, step, s1))
    requires ForLayout(prog, pc, ForGen(cond, step, s1, env, n, l), step, n, l) && ForGen(cond, step, s1, env, n, l).c1.control
    ensures var fc := ForGen(cond, step, s1, env, n, l);
            Simulates(prog, env, At(pc + 1 + |fc.c1.code|, st), pc + |fc.code|, cx, true, ForRest(cond, step, s1, cx, m, fuel))
    decreases fuel, StmtSize(s1), 3
  {
    hide Reaches; hide After; hide Eval; hide GenB; hide GenE; hide GenS; hide SoundCond; hide Sound; hide SoundS; hide Need; hide NeedS;
    hide Unique; hide Target; hide Agree; hide Simulates; hide Placed; hide Step; hide Run;
    hide ForNext; hide NeedOpt; hide SoundOpt;
    var fc := ForGen(cond, step, s1, env, n, l);
    var need := ForNeed(cond, step, s1);
    var bodyAt, stepAt := pc + 1 + |fc.c1.code|, pc + 1 + |fc.c1.code| + |fc.c2.code|;
    var a, end := At(bodyAt, st), pc + |fc.code|;
    var f := Run(s1, cx, m, fuel);
    StmtCorrect(s1, fc.inner, if step.None? then fc.c1.next else fc.c1.next + 1, prog, bodyAt, cx, st, m, fuel);
    if !GoesOn(f) {
      BodyEnds(prog, fc.inner, env, a, stepAt, end - 1, cx, fc.c2.control, f);
    } else {
      BodyGoesOn(prog, fc.inner, a, stepAt, cx, fc.c2.control, f);
      var go := if f.Normal? then stepAt else Target(prog, fc.inner.cnt);
      var st1 :| Reaches(prog, a, At(go, st1)) && After(cx, st, st1, f.m);
      AfterReady(cx, st, m, need, st1, f.m);
      ForStep(cond, step, s1, env, n, l, prog, pc, go, cx, st1, f.m, fuel);
      Prepend(prog, env, a, At(go, st1), end, cx, true, f.m, ForNext(cond, step, s1, cx, f.m, fuel));
    }
  }

  lemma ForStep(cond: Opt, step: Opt, s1: Stmt, env: Env, n: nat, l: nat, prog: seq<Instr>, pc: nat, go: nat, cx: Ctx, st: Cpu, m: Memory, fuel: nat)
    requires SoundFor(cond, step, s1) && n <= l && Unique(prog) && Ready(cx, st, m, ForNeed(cond, step, s1))
    requires ForLayout(prog, pc, ForGen(cond, step, s1, env, n, l), step, n, l)
    requires var fc := ForGen(cond, step, s1, env, n, l);
             go == pc + 1 + |fc.c1.code| + |fc.c2.code| || go == Target(prog, fc.inner.cnt)
    ensures var fc := ForGen(cond, step, s1, env, n, l);
            Simulates(prog, env, At(go, st), pc + |fc.code|, cx, true, ForNext(cond, step, s1, cx, m, fuel))
    decreases fuel, StmtSize(s1), 2
  {
    hide Reaches; hide After; hide Eval; hide GenB; hide GenE; hide GenS; hide SoundCond; hide Sound; hide SoundS; hide Need; hide NeedS;
    hide Unique; hide Target; hide Agree; hide Simulates; hide Placed; hide Step; hide Run;
    hide RunFor;
    var fc := ForGen(cond, step, s1, env, n, l);
    var need := ForNeed(cond, step, s1);
    var a, end := At(go, st), pc + |fc.code|;
    var r := EvalOpt(step, cx, m);
    SimBad(prog, env, a, end, cx, true);
    if r.Val? {
      GetsHere(prog, go, cx, st, m);
      if step.None? {
        if go != pc { GetsJump(prog, a, go, l, cx, m); }
      } else {
        GetsLabel(prog, a, go, cx, m);
        var st0 :| Reaches(prog, a, At(go + 1, st0)) && After(cx, st, st0, m);
        AfterReady(cx, st, m, need, st0, m);
        ExprAt(step.e, fc.c2.next, true, prog, go + 1, cx, st0, m);
        GetsFirst(prog, a, At(go + 1, st0), end - 2, cx, m, r.m);
        GetsJump(prog, a, end - 2, l, cx, r.m);
      }
      var st1 :| Reaches(prog, a, At(pc, st1)) && After(cx, st, st1, r.m);
      if fuel == 0 {
        LoopAgain(prog, env, a, At(pc, st1), end, cx);
      } else {
        AfterReady(cx, st, m, need, st1, r.m);
        ForSim(cond, step, s1, env, n, l, prog, pc, cx, st1, r.m, fuel - 1);
        Prepend(prog, env, a, At(pc, st1), end, cx, true, r.m, RunFor(cond, step, s1, cx, r.m, fuel - 1));
      }
    }
  }

  // ---------- switch: the chain of tests ----------

  /** From a to pc with D and memory as they were. */
  ghost predicate Chains(prog: seq<Instr>, a: Config, pc: nat) {
    exists st :: Reaches(prog, a, At(pc, st)) && OnlyD(a.st, st) && st.d == a.st.d
  }

  lemma ChainsTrans(prog: seq<Instr>, a: Config, b: Config, pc: nat)
    requires Reaches(prog, a, b) && OnlyD(a.st, b.st) && b.st.d == a.st.d && Chains(prog, b, pc)
    ensures Chains(prog, a, pc)
  {
    hide Reaches;
    var st :| Reaches(prog, b, At(pc, st)) && OnlyD(b.st, st) && st.d == b.st.d;
    ReachesTrans(prog, a, b, At(pc, st));
  }

  lemma ChainsStep(prog: seq<Instr>, pc: nat, st: Cpu)
    requires OnlyD(st, Step(prog, At(pc, st)).st) && Step(prog, At(pc, st)).st.d == st.d
    ensures Chains(prog, At(pc, st), Step(prog, At(pc, st)).pc)
  {
    hide Step; hide Reaches;
    ReachesStep(prog, At(pc, st));
    var c := Step(prog, At(pc, st));
    assert c == At(c.pc, c.st);
  }

  /** CMPD #c and the branch after it. */
  lemma TestAt(prog: seq<Instr>, pc: nat, c: int, i: Instr, st: Cpu)
    requires pc + 1 < |prog| && prog[pc] == Cmpd(Imm(c)) && prog[pc + 1] == i
    requires i.ShortEq? || (i.Branch? && (i.cc == EQ || i.cc == NE))
    ensures Chains(prog, At(pc, st),
                   if (st.d == Wrap(c)) != (i.Branch? && i.cc == NE) then Target(prog, i.l) else pc + 2)
  {
    hide Step; hide Reaches; hide Target;
    StraightStep(prog, pc, st);
    CmpdImm(c, st);
    var st1 := Do(Cmpd(Imm(c)), st);
    ReachesStep(prog, At(pc, st));
    BranchStep(prog, pc + 1, st1);
    ChainsStep(prog, pc + 1, st1);
    ChainsTrans(prog, At(pc, st), At(pc + 1, st1), Step(prog, At(pc + 1, st1)).pc);
  }

  lemma CmpdImm(c: int, st: Cpu)
    ensures var r := Do(Cmpd(Imm(c)), st); OnlyD(st, r) && r.d == st.d && r.cc.z == (st.d == Wrap(c))
  {}

  lemma {:induction false} TestsAt(ks: seq<int>, l: nat, fail: nat, n: int, prog: seq<Instr>, pc: nat, st: Cpu)
    requires |ks| > 0 && Placed(prog, pc, CaseTests(ks, l, fail, n))
    requires Target(prog, l) == pc + |CaseTests(ks, l, fail, n)|
    ensures Chains(prog, At(pc, st), if Listed(ks, st.d) then Target(prog, l) else Target(prog, fail))
    decreases |ks|, 0
  {
    hide Reaches; hide Target; hide Chains; hide Placed;
    var last := |ks| - 1;
    if last == 0 {
      assert ks == [ks[0]];
      PlacedAt(prog, pc, CaseTests(ks, l, fail, n), 0);
      PlacedAt(prog, pc, CaseTests(ks, l, fail, n), 1);
      PlacedLen(prog, pc, CaseTests(ks, l, fail, n));
      TestAt(prog, pc, ks[0], Branch(NE, fail), st);
    } else {
      var i := if n - 6 > 127 then Branch(EQ, l) else ShortEq(l);
      var rest := CaseTests(ks[..last], l, fail, n - 6);
      PlacedSplit(prog, pc, [Cmpd(Imm(ks[last])), i], rest);
      PlacedAt(prog, pc, [Cmpd(Imm(ks[last])), i], 0);
      PlacedAt(prog, pc, [Cmpd(Imm(ks[last])), i], 1);
      PlacedLen(prog, pc, CaseTests(ks, l, fail, n));
      TestAt(prog, pc, ks[last], i, st);
      ListedLast(ks, st.d);
      if st.d != Wrap(ks[last]) { TestsRest(ks[..last], l, fail, n - 6, prog, pc, st); }
    }
  }

  lemma ListedLast(ks: seq<int>, v: Word)
    requires |ks| > 0
    ensures Listed(ks, v) <==> Wrap(ks[|ks| - 1]) == v || Listed(ks[..|ks| - 1], v)
  {
    assert ks == ks[..|ks| - 1] + [ks[|ks| - 1]];
  }

  lemma TestsRest(ks: seq<int>, l: nat, fail: nat, n: int, prog: seq<Instr>, pc: nat, st: Cpu)
    requires |ks| > 0 && Placed(prog, pc + 2, CaseTests(ks, l, fail, n))
    requires Target(prog, l) == pc + 2 + |CaseTests(ks, l, fail, n)|
    requires Chains(prog, At(pc, st), pc + 2)
    ensures Chains(prog, At(pc, st), if Listed(ks, st.d) then Target(prog, l) else Target(prog, fail))
    decreases |ks|, 1
  {
    hide Reaches; hide Target; hide Placed; hide CaseTests; hide Listed;
    var st1 :| Reaches(prog, At(pc, st), At(pc + 2, st1)) && OnlyD(st, st1) && st1.d == st.d;
    TestsAt(ks, l, fail, n, prog, pc + 2, st1);
    ChainsTrans(prog, At(pc, st), At(pc + 2, st1), if Listed(ks, st.d) then Target(prog, l) else Target(prog, fail));
  }

  // ---------- switch: one case group ----------

  /** Where the parts of a case group stand: optional jump, optional label, tests, label. */
  ghost predicate CaseLayout(prog: seq<Instr>, pc: nat, ks: seq<int>, csl: nat, l: nat, k: bool, bodyAt: nat)
    requires |ks| > 0
  {
    var t := CaseTests(ks, l, l + 1, 2 + 6 * |ks|);
    var j := if k then pc + 1 else pc;
    var b := if csl != 0 then j + 1 else j;
    && bodyAt == b + |t| + 1 && bodyAt <= |prog|
    && (k ==> prog[pc] == CaseJump(l, 2 + 6 * |ks|))
    && (csl != 0 ==> prog[j] == Label(csl) && Target(prog, csl) == j)
    && Placed(prog, b, t) && prog[bodyAt - 1] == Label(l) && Target(prog, l) == bodyAt - 1
  }

  lemma CasePlaced(ks: seq<int>, csl: nat, l: nat, k: bool, prog: seq<Instr>, pc: nat)
    requires |ks| > 0 && Unique(prog) && Placed(prog, pc, CaseCode(ks, csl, l, k))
    ensures CaseLayout(prog, pc, ks, csl, l, k, pc + |CaseCode(ks, csl, l, k)|)
  {
    hide Unique; hide Target; hide Placed; hide CaseTests; hide CaseJump;
    var t := CaseTests(ks, l, l + 1, 2 + 6 * |ks|);
    var c1 := if k then [CaseJump(l, 2 + 6 * |ks|)] else [];
    var c2 := if csl != 0 then [Label(csl)] else [];
    PlacedLen(prog, pc, CaseCode(ks, csl, l, k));
    PlacedParts(prog, pc, c1, c2, t, Label(l));
    if k { PlacedAt(prog, pc, c1, 0); }
    if csl != 0 { PlacedAt(prog, pc + |c1|, c2, 0); TargetHere(prog, pc + |c1|, csl); }
    TargetHere(prog, pc + |c1| + |c2| + |t|, l);
  }

  lemma PlacedParts(prog: seq<Instr>, pc: nat, c1: seq<Instr>, c2: seq<Instr>, t: seq<Instr>, i: Instr)
    requires Placed(prog, pc, c1 + (c2 + (t + [i])))
    ensures Placed(prog, pc, c1) && Placed(prog, pc + |c1|, c2) && Placed(prog, pc + |c1| + |c2|, t)
    ensures pc + |c1| + |c2| + |t| < |prog| && prog[pc + |c1| + |c2| + |t|] == i
  {
    hide Placed;
    PlacedSplit(prog, pc, c1, c2 + (t + [i]));
    PlacedSplit(prog, pc + |c1|, c2, t + [i]);
    Layout1(prog, pc + |c1| + |c2|, t, i);
  }

  /** Falling into a case group from the statements before it. */
  lemma CaseFall(ks: seq<int>, csl: nat, l: nat, prog: seq<Instr>, pc: nat, bodyAt: nat, cx: Ctx, st: Cpu, m: Memory)
    requires |ks| > 0 && CaseLayout(prog, pc, ks, csl, l, true, bodyAt) && Ready(cx, st, m, 0)
    ensures Gets(prog, At(pc, st), bodyAt, cx, m)
  {
    hide Gets; hide Target; hide Placed; hide CaseTests; hide Agree;
    GetsHere(prog, pc, cx, st, m);
    GetsJump(prog, At(pc, st), pc, l, cx, m);
    GetsLabel(prog, At(pc, st), bodyAt - 1, cx, m);
  }

  /** Where the chain of tests is entered. */
  function ChainPc(prog: seq<Instr>, csl: nat, pc: nat): nat { if csl == 0 then pc else Target(prog, csl) }

  lemma CaseTest(ks: seq<int>, csl: nat, l: nat, k: bool, prog: seq<Instr>, pc: nat, bodyAt: nat, st: Cpu)
    requires |ks| > 0 && CaseLayout(prog, pc, ks, csl, l, k, bodyAt) && (csl == 0 ==> !k)
    ensures Chains(prog, At(ChainPc(prog, csl, pc), st), if Listed(ks, st.d) then bodyAt else Target(prog, l + 1))
  {
    hide Target; hide Placed; hide CaseTests; hide Reaches; hide Step; hide Listed;
    var p := ChainPc(prog, csl, pc);
    var b := if csl != 0 then p + 1 else p;
    TestsAt(ks, l, l + 1, 2 + 6 * |ks|, prog, b, st);
    if csl != 0 {
      LabelStep(prog, p, st);
      ReachesStep(prog, At(p, st));
      ChainsTrans(prog, At(p, st), At(b, st), if Listed(ks, st.d) then Target(prog, l) else Target(prog, l + 1));
    }
    if Listed(ks, st.d) { ChainsLabel(prog, At(p, st), bodyAt - 1); }
  }

  lemma ChainsLabel(prog: seq<Instr>, a: Config, pc: nat)
    requires Chains(prog, a, pc) && pc < |prog| && (prog[pc].Label? || prog[pc].Equ?)
    ensures Chains(prog, a, pc + 1)
  {
    hide Reaches; hide Step;
    var st :| Reaches(prog, a, At(pc, st)) && OnlyD(a.st, st) && st.d == a.st.d;
    LabelStep(prog, pc, st);
    ReachesStep(prog, At(pc, st));
    ReachesTrans(prog, a, At(pc, st), At(pc + 1, st));
  }

  lemma ChainsGets(prog: seq<Instr>, a: Config, pc: nat, cx: Ctx, m: Memory)
    requires Chains(prog, a, pc) && Ready(cx, a.st, m, 0)
    ensures Gets(prog, a, pc, cx, m)
  {
    hide Reaches;
    var st :| Reaches(prog, a, At(pc, st)) && OnlyD(a.st, st) && st.d == a.st.d;
    KeptRefl(cx, a.st);
  }

  // ---------- switch: running bodies ----------

  /** A body followed by the rest of the clauses. */
  lemma BodyThen(body: Stmt, next: Clauses, env: Env, csl: nat, dl: nat, n: nat, v: Word, dflt: bool,
                 prog: seq<Instr>, pc: nat, cx: Ctx, st: Cpu, m: Memory, fuel: nat)
    requires SoundS(body) && SoundClauses(next) && csl != 0 && Unique(prog)
    requires var g1 := GenS(body, env, n, true);
             Placed(prog, pc, g1.code + GenClauses(next, env, csl, dl, g1.next, g1.control).g.code)
    requires Ready(cx, st, m, Max(NeedS(body), NeedClauses(next)))
    ensures var g1 := GenS(body, env, n, true);
            var gc := GenClauses(next, env, csl, dl, g1.next, g1.control);
            var f := Run(body, cx, m, fuel);
            Simulates(prog, env, At(pc, st), pc + |g1.code| + |gc.g.code|, cx, gc.g.control,
                      if f.Normal? then RunClauses(next, v, dflt, true, cx, f.m, fuel) else f)
    decreases fuel, StmtSize(body) + ClausesSize(next), 2
  {
    hide Reaches; hide After; hide Eval; hide GenE; hide GenS; hide Sound; hide SoundS; hide Need; hide NeedS;
    hide Unique; hide Target; hide Agree; hide Simulates; hide Placed; hide Step; hide Run; hide CaseTests; hide CaseCode;
    hide GenClauses; hide RunClauses; hide NeedClauses; hide SoundClauses;
    var need := Max(NeedS(body), NeedClauses(next));
    var g1 := GenS(body, env, n, true);
    var gc := GenClauses(next, env, csl, dl, g1.next, g1.control);
    var pc1, end := pc + |g1.code|, pc + |g1.code| + |gc.g.code|;
    var f := Run(body, cx, m, fuel);
    PlacedSplit(prog, pc, g1.code, gc.g.code);
    StmtCorrect(body, env, n, prog, pc, cx, st, m, fuel);
    if f.Normal? {
      FellThrough(prog, env, At(pc, st), pc1, cx, g1.control, f);
      var st1 :| Reaches(prog, At(pc, st), At(pc1, st1)) && After(cx, st, st1, f.m);
      AfterReady(cx, st, m, need, st1, f.m);
      BodiesAt(next, env, csl, dl, g1.next, v, dflt, prog, pc1, cx, st1, f.m, fuel);
      Prepend(prog, env, At(pc, st), At(pc1, st1), end, cx, gc.g.control, f.m, RunClauses(next, v, dflt, true, cx, f.m, fuel));
    } else {
      NotNormal(prog, env, At(pc, st), pc1, end, cx, g1.control, gc.g.control, f);
    }
  }

  lemma FellThrough(prog: seq<Instr>, env: Env, a: Config, e: nat, cx: Ctx, k: bool, f: Flow)
    requires Simulates(prog, env, a, e, cx, k, f) && f.Normal?
    ensures k && Gets(prog, a, e, cx, f.m)
  {
    hide Gets;
  }

  /** Running on into the clauses after a body. */
  lemma BodiesAt(cs: Clauses, env: Env, csl: nat, dl: nat, n: nat, v: Word, dflt: bool,
                 prog: seq<Instr>, pc: nat, cx: Ctx, st: Cpu, m: Memory, fuel: nat)
    requires SoundClauses(cs) && csl != 0 && Unique(prog)
    requires Placed(prog, pc, GenClauses(cs, env, csl, dl, n, true).g.code) && Ready(cx, st, m, NeedClauses(cs))
    ensures var gc := GenClauses(cs, env, csl, dl, n, true);
            Simulates(prog, env, At(pc, st), pc + |gc.g.code|, cx, gc.g.control, RunClauses(cs, v, dflt, true, cx, m, fuel))
    decreases fuel, ClausesSize(cs), 3
  {
    hide Reaches; hide After; hide Eval; hide GenE; hide GenS; hide Sound; hide SoundS; hide Need; hide NeedS;
    hide Unique; hide Target; hide Agree; hide Simulates; hide Placed; hide Step; hide Run; hide CaseTests; hide CaseCode;
    var a := At(pc, st);
    match cs
    case End =>
      GetsHere(prog, pc, cx, st, m);
      SimNormal(prog, env, a, pc, cx, m);
    case Case(ks, body, next) =>
      BodiesCase(ks, body, next, env, csl, dl, n, v, dflt, prog, pc, cx, st, m, fuel);
    case Default(body, next) =>
      var g1 := GenS(body, env, n + 1, true);
      var gc := GenClauses(next, env, csl, n, g1.next, g1.control);
      assert [] + ([Label(n)] + (g1.code + gc.g.code)) == [Label(n)] + (g1.code + gc.g.code);
      LayoutFirst(prog, pc, Label(n), g1.code + gc.g.code);
      GetsHere(prog, pc, cx, st, m);
      GetsLabel(prog, a, pc, cx, m);
      var st1 :| Reaches(prog, a, At(pc + 1, st1)) && After(cx, st, st1, m);
      AfterReady(cx, st, m, NeedClauses(cs), st1, m);
      BodyThen(body, next, env, csl, n, n + 1, v, dflt, prog, pc + 1, cx, st1, m, fuel);
      Prepend(prog, env, a, At(pc + 1, st1), pc + 1 + |g1.code| + |gc.g.code|, cx, gc.g.control, m,
              RunClauses(cs, v, dflt, true, cx, m, fuel));
  }

  lemma BodiesCase(ks: seq<int>, body: Stmt, next: Clauses, env: Env, csl: nat, dl: nat, n: nat, v: Word, dflt: bool,
                   prog: seq<Instr>, pc: nat, cx: Ctx, st: Cpu, m: Memory, fuel: nat)
    requires var cs := Case(ks, body, next);
             SoundClauses(cs) && csl != 0 && Unique(prog)
             && Placed(prog, pc, GenClauses(cs, env, csl, dl, n, true).g.code) && Ready(cx, st, m, NeedClauses(cs))
    ensures var cs := Case(ks, body, next);
            var gc := GenClauses(cs, env, csl, dl, n, true);
            Simulates(prog, env, At(pc, st), pc + |gc.g.code|, cx, gc.g.control, RunClauses(cs, v, dflt, true, cx, m, fuel))
    decreases fuel, StmtSize(body) + ClausesSize(next), 3
  {
    hide Reaches; hide After; hide Eval; hide GenE; hide GenS; hide Sound; hide SoundS; hide Need; hide NeedS;
    hide Unique; hide Target; hide Agree; hide Simulates; hide Placed; hide Step; hide Run; hide CaseTests; hide CaseCode;
    var cs := Case(ks, body, next);
    var a := At(pc, st);
    var g1 := GenS(body, env, n + 2, true);
    var gc := GenClauses(next, env, n + 1, dl, g1.next, g1.control);
    var head := CaseCode(ks, csl, n, true);
    PlacedSplit(prog, pc, head, g1.code + gc.g.code);
    CasePlaced(ks, csl, n, true, prog, pc);
    CaseFall(ks, csl, n, prog, pc, pc + |head|, cx, st, m);
    var st1 :| Reaches(prog, a, At(pc + |head|, st1)) && After(cx, st, st1, m);
    AfterReady(cx, st, m, NeedClauses(cs), st1, m);
    BodyThen(body, next, env, n + 1, dl, n + 2, v, dflt, prog, pc + |head|, cx, st1, m, fuel);
    Prepend(prog, env, a, At(pc + |head|, st1), pc + |head| + |g1.code| + |gc.g.code|, cx, gc.g.control, m,
            RunClauses(cs, v, dflt, true, cx, m, fuel));
  }

  // ---------- switch: finding the body ----------

  /** A piece c between two others. */
  lemma LayoutHead(prog: seq<Instr>, pc: nat, head: seq<Instr>, c1: seq<Instr>, c2: seq<Instr>)
    requires Placed(prog, pc, head + (c1 + c2))
    ensures Placed(prog, pc, head) && Placed(prog, pc + |head|, c1 + c2) && Placed(prog, pc + |head| + |c1|, c2)
  {
    hide Placed;
    PlacedSplit(prog, pc, head, c1 + c2);
    PlacedSplit(prog, pc + |head|, c1, c2);
  }

  function DefaultFirst(csl: nat, n: nat): seq<Instr> { if csl == 0 then [Jmp(n)] else [] }

  function DefaultLabel(csl: nat, n: nat): nat { if csl == 0 then n + 1 else n }

  function DefaultNext(csl: nat, n: nat): nat { if csl == 0 then n else csl }

  lemma CaseShape(ks: seq<int>, body: Stmt, next: Clauses, env: Env, csl: nat, dl: nat, n: nat, k: bool)
    requires |ks| > 0
    ensures var g1 := GenS(body, env, n + 2, true);
            var gc := GenClauses(next, env, n + 1, dl, g1.next, g1.control);
            GenClauses(Case(ks, body, next), env, csl, dl, n, k)
            == GenC(Gen(CaseCode(ks, csl, n, k) + (g1.code + gc.g.code), gc.g.next, gc.g.control), gc.csl, gc.dl)
  {
    hide GenS; hide CaseCode;
  }

  lemma DefaultShape(body: Stmt, next: Clauses, env: Env, csl: nat, dl: nat, n: nat, k: bool)
    ensures var g1 := GenS(body, env, DefaultLabel(csl, n) + 1, true);
            var gc := GenClauses(next, env, DefaultNext(csl, n), DefaultLabel(csl, n), g1.next, g1.control);
            GenClauses(Default(body, next), env, csl, dl, n, k)
            == GenC(Gen((DefaultFirst(csl, n) + [Label(DefaultLabel(csl, n))]) + (g1.code + gc.g.code), gc.g.next, gc.g.control), gc.csl, gc.dl)
  {
    hide GenS;
    var g1 := GenS(body, env, DefaultLabel(csl, n) + 1, true);
    var gc := GenClauses(next, env, DefaultNext(csl, n), DefaultLabel(csl, n), g1.next, g1.control);
    assert (DefaultFirst(csl, n) + [Label(DefaultLabel(csl, n))]) + (g1.code + gc.g.code)
        == DefaultFirst(csl, n) + ([Label(DefaultLabel(csl, n))] + (g1.code + gc.g.code));
  }

  /** The test of a case group, with the state after it. */
  lemma CaseTestAt(ks: seq<int>, csl: nat, l: nat, k: bool, prog: seq<Instr>, pc: nat, st: Cpu) returns (st1: Cpu)
    requires |ks| > 0 && Unique(prog) && Placed(prog, pc, CaseCode(ks, csl, l, k)) && (csl == 0 ==> !k)
    ensures var to := if Listed(ks, st.d) then pc + |CaseCode(ks, csl, l, k)| else Target(prog, l + 1);
            Reaches(prog, At(ChainPc(prog, csl, pc), st), At(to, st1)) && OnlyD(st, st1) && st1.d == st.d
  {
    hide Target; hide Placed; hide CaseTests; hide CaseCode; hide Reaches; hide Listed; hide Unique;
    CasePlaced(ks, csl, l, k, prog, pc);
    CaseTest(ks, csl, l, k, prog, pc, pc + |CaseCode(ks, csl, l, k)|, st);
    var to := if Listed(ks, st.d) then pc + |CaseCode(ks, csl, l, k)| else Target(prog, l + 1);
    st1 :| Reaches(prog, At(ChainPc(prog, csl, pc), st), At(to, st1)) && OnlyD(st, st1) && st1.d == st.d;
  }

  /** The chain of tests passes by a default. */
  lemma DefaultPass(csl: nat, n: nat, prog: seq<Instr>, pc: nat, st: Cpu)
    requires Placed(prog, pc, DefaultFirst(csl, n))
    ensures Reaches(prog, At(ChainPc(prog, csl, pc), st), At(Target(prog, DefaultNext(csl, n)), st))
  {
    hide Target; hide Reaches; hide Step; hide Placed;
    if csl == 0 {
      PlacedLen(prog, pc, [Jmp(n)]);
      PlacedAt(prog, pc, [Jmp(n)], 0);
      JumpStep(prog, pc, st, n);
      ReachesStep(prog, At(pc, st));
    } else {
      ReachesRefl(prog, At(Target(prog, csl), st));
    }
  }

  lemma OnlyDReady(cx: Ctx, st: Cpu, st1: Cpu, m: Memory, need: int)
    requires Ready(cx, st, m, need) && OnlyD(st, st1)
    ensures Ready(cx, st1, m, need) && After(cx, st, st1, m)
  {
    KeptRefl(cx, st);
  }

  /** With D listed somewhere, the tests lead to the first body that lists it. */
  lemma SeekAt(cs: Clauses, env: Env, csl: nat, dl: nat, n: nat, k: bool, prog: seq<Instr>, pc: nat, cx: Ctx, st: Cpu, m: Memory, fuel: nat)
    requires SoundClauses(cs) && Matches(cs, st.d) && (csl == 0 ==> !k) && n > 0 && csl < n && Unique(prog)
    requires Placed(prog, pc, GenClauses(cs, env, csl, dl, n, k).g.code) && Ready(cx, st, m, NeedClauses(cs))
    ensures var gc := GenClauses(cs, env, csl, dl, n, k);
            Simulates(prog, env, At(ChainPc(prog, csl, pc), st), pc + |gc.g.code|, cx, gc.g.control,
                      RunClauses(cs, st.d, false, false, cx, m, fuel))
    decreases fuel, ClausesSize(cs), 3
  {
    hide Reaches; hide GenS; hide SoundS; hide NeedS; hide Unique; hide Target; hide Agree; hide Simulates; hide Placed;
    hide Run; hide CaseCode; hide Listed; hide ChainPc; hide Max;
    if cs.Case? { SeekCase(cs.consts, cs.body, cs.next, env, csl, dl, n, k, prog, pc, cx, st, m, fuel); }
    if cs.Default? { SeekDefault(cs.body, cs.next, env, csl, dl, n, k, prog, pc, cx, st, m, fuel); }
  }

  lemma SeekCase(ks: seq<int>, body: Stmt, next: Clauses, env: Env, csl: nat, dl: nat, n: nat, k: bool,
                 prog: seq<Instr>, pc: nat, cx: Ctx, st: Cpu, m: Memory, fuel: nat)
    requires var cs := Case(ks, body, next);
             && SoundClauses(cs) && Matches(cs, st.d) && (csl == 0 ==> !k) && n > 0 && csl < n && Unique(prog)
             && Placed(prog, pc, GenClauses(cs, env, csl, dl, n, k).g.code) && Ready(cx, st, m, NeedClauses(cs))
    ensures var cs := Case(ks, body, next);
            var gc := GenClauses(cs, env, csl, dl, n, k);
            Simulates(prog, env, At(ChainPc(prog, csl, pc), st), pc + |gc.g.code|, cx, gc.g.control,
                      RunClauses(cs, st.d, false, false, cx, m, fuel))
    decreases fuel, StmtSize(body) + ClausesSize(next) + 1, 2
  {
    hide Reaches; hide After; hide GenS; hide SoundS; hide NeedS; hide Unique; hide Target; hide Agree; hide Simulates; hide Placed;
    hide Run; hide CaseCode; hide Listed; hide GenClauses; hide OnlyD; hide Ready; hide ChainPc;
    var g1 := GenS(body, env, n + 2, true);
    var gc := GenClauses(next, env, n + 1, dl, g1.next, g1.control);
    CaseShape(ks, body, next, env, csl, dl, n, k);
    var head := CaseCode(ks, csl, n, k);
    var a, end := At(ChainPc(prog, csl, pc), st), pc + |head| + |g1.code| + |gc.g.code|;
    LayoutHead(prog, pc, head, g1.code, gc.g.code);
    var st1 := CaseTestAt(ks, csl, n, k, prog, pc, st);
    OnlyDReady(cx, st, st1, m, NeedClauses(Case(ks, body, next)));
    if Listed(ks, st.d) {
      BodyThen(body, next, env, n + 1, dl, n + 2, st.d, false, prog, pc + |head|, cx, st1, m, fuel);
      Prepend(prog, env, a, At(pc + |head|, st1), end, cx, gc.g.control, m, RunClauses(Case(ks, body, next), st.d, false, false, cx, m, fuel));
    } else {
      NextLabel(body, env, n + 2);
      SeekNext(next, env, n + 1, dl, g1.next, g1.control, prog, a, pc + |head| + |g1.code|, cx, st1, m, NeedClauses(Case(ks, body, next)), fuel);
    }
  }

  lemma NextLabel(body: Stmt, env: Env, n: nat)
    requires SoundS(body)
    ensures n <= GenS(body, env, n, true).next
  {
    hide GenS; hide SoundS;
    LabelsS(body, env, n, true);
    OnceOrder(GenS(body, env, n, true), n);
  }

  /** The rest of the chain after one link. */
  lemma SeekNext(next: Clauses, env: Env, csl: nat, dl: nat, n: nat, k: bool, prog: seq<Instr>, a: Config, pc: nat, cx: Ctx, st: Cpu, m: Memory, need: int, fuel: nat)
    requires SoundClauses(next) && Matches(next, st.d) && 0 < csl < n && Unique(prog)
    requires Placed(prog, pc, GenClauses(next, env, csl, dl, n, k).g.code) && Ready(cx, st, m, need) && need >= NeedClauses(next)
    requires Reaches(prog, a, At(Target(prog, csl), st)) && After(cx, a.st, st, m)
    ensures var gc := GenClauses(next, env, csl, dl, n, k);
            Simulates(prog, env, a, pc + |gc.g.code|, cx, gc.g.control, RunClauses(next, st.d, false, false, cx, m, fuel))
    decreases fuel, ClausesSize(next), 4
  {
    hide Reaches; hide After; hide Unique; hide Target; hide Agree; hide Simulates; hide Placed; hide GenClauses; hide RunClauses;
    hide SoundClauses; hide NeedClauses; hide Matches;
    var gc := GenClauses(next, env, csl, dl, n, k);
    SeekAt(next, env, csl, dl, n, k, prog, pc, cx, st, m, fuel);
    Prepend(prog, env, a, At(Target(prog, csl), st), pc + |gc.g.code|, cx, gc.g.control, m, RunClauses(next, st.d, false, false, cx, m, fuel));
  }

  lemma SeekDefault(body: Stmt, next: Clauses, env: Env, csl: nat, dl: nat, n: nat, k: bool,
                    prog: seq<Instr>, pc: nat, cx: Ctx, st: Cpu, m: Memory, fuel: nat)
    requires var cs := Default(body, next);
             && SoundClauses(cs) && Matches(cs, st.d) && (csl == 0 ==> !k) && n > 0 && csl < n && Unique(prog)
             && Placed(prog, pc, GenClauses(cs, env, csl, dl, n, k).g.code) && Ready(cx, st, m, NeedClauses(cs))
    ensures var cs := Default(body, next);
            var gc := GenClauses(cs, env, csl, dl, n, k);
            Simulates(prog, env, At(ChainPc(prog, csl, pc), st), pc + |gc.g.code|, cx, gc.g.control,
                      RunClauses(cs, st.d, false, false, cx, m, fuel))
    decreases fuel, StmtSize(body) + ClausesSize(next) + 1, 2
  {
    hide Reaches; hide After; hide GenS; hide SoundS; hide NeedS; hide Unique; hide Target; hide Agree; hide Simulates; hide Placed;
    hide Run; hide GenClauses; hide OnlyD; hide ChainPc; hide DefaultFirst;
    var d := DefaultLabel(csl, n);
    var g1 := GenS(body, env, d + 1, true);
    var gc := GenClauses(next, env, DefaultNext(csl, n), d, g1.next, g1.control);
    DefaultShape(body, next, env, csl, dl, n, k);
    var head := DefaultFirst(csl, n) + [Label(d)];
    LayoutHead(prog, pc, head, g1.code, gc.g.code);
    PlacedSplit(prog, pc, DefaultFirst(csl, n), [Label(d)]);
    DefaultPass(csl, n, prog, pc, st);
    AfterRefl(cx, st, m);
    NextLabel(body, env, d + 1);
    SeekNext(next, env, DefaultNext(csl, n), d, g1.next, g1.control, prog, At(ChainPc(prog, csl, pc), st),
             pc + |head| + |g1.code|, cx, st, m, NeedClauses(Default(body, next)), fuel);
  }

  /** With D listed nowhere, the tests lead to the last failing label. */
  lemma {:induction false} ChainEnd(cs: Clauses, env: Env, csl: nat, dl: nat, n: nat, k: bool, prog: seq<Instr>, pc: nat, st: Cpu)
    requires SoundClauses(cs) && !Matches(cs, st.d) && (csl == 0 ==> !k) && n > 0 && csl < n && Unique(prog)
    requires Placed(prog, pc, GenClauses(cs, env, csl, dl, n, k).g.code)
    ensures var gc := GenClauses(cs, env, csl, dl, n, k);
            Chains(prog, At(ChainPc(prog, csl, pc), st), ChainPc(prog, gc.csl, pc + |gc.g.code|))
    decreases ClausesSize(cs)
  {
    hide Reaches; hide GenS; hide SoundS; hide Unique; hide Target; hide Placed; hide CaseCode; hide Listed;
    if cs.End? { ReachesRefl(prog, At(ChainPc(prog, csl, pc), st)); }
    if cs.Case? { ChainEndCase(cs.consts, cs.body, cs.next, env, csl, dl, n, k, prog, pc, st); }
    if cs.Default? { ChainEndDefault(cs.body, cs.next, env, csl, dl, n, k, prog, pc, st); }
  }

  lemma ChainEndCase(ks: seq<int>, body: Stmt, next: Clauses, env: Env, csl: nat, dl: nat, n: nat, k: bool, prog: seq<Instr>, pc: nat, st: Cpu)
    requires var cs := Case(ks, body, next);
             && SoundClauses(cs) && !Matches(cs, st.d) && (csl == 0 ==> !k) && n > 0 && csl < n && Unique(prog)
             && Placed(prog, pc, GenClauses(cs, env, csl, dl, n, k).g.code)
    ensures var gc := GenClauses(Case(ks, body, next), env, csl, dl, n, k);
            Chains(prog, At(ChainPc(prog, csl, pc), st), ChainPc(prog, gc.csl, pc + |gc.g.code|))
    decreases ClausesSize(next) + 1, 0
  {
    hide Reaches; hide GenS; hide SoundS; hide Unique; hide Target; hide Placed; hide CaseCode; hide Listed; hide GenClauses; hide Chains;
    hide OnlyD;
    var g1 := GenS(body, env, n + 2, true);
    var gc := GenClauses(next, env, n + 1, dl, g1.next, g1.control);
    CaseShape(ks, body, next, env, csl, dl, n, k);
    var head := CaseCode(ks, csl, n, k);
    LayoutHead(prog, pc, head, g1.code, gc.g.code);
    var st1 := CaseTestAt(ks, csl, n, k, prog, pc, st);
    NextLabel(body, env, n + 2);
    ChainEnd(next, env, n + 1, dl, g1.next, g1.control, prog, pc + |head| + |g1.code|, st1);
    ChainsTrans(prog, At(ChainPc(prog, csl, pc), st), At(Target(prog, n + 1), st1), ChainPc(prog, gc.csl, pc + |head| + |g1.code| + |gc.g.code|));
  }

  lemma ChainEndDefault(body: Stmt, next: Clauses, env: Env, csl: nat, dl: nat, n: nat, k: bool, prog: seq<Instr>, pc: nat, st: Cpu)
    requires var cs := Default(body, next);
             && SoundClauses(cs) && !Matches(cs, st.d) && (csl == 0 ==> !k) && n > 0 && csl < n && Unique(prog)
             && Placed(prog, pc, GenClauses(cs, env, csl, dl, n, k).g.code)
    ensures var gc := GenClauses(Default(body, next), env, csl, dl, n, k);
            Chains(prog, At(ChainPc(prog, csl, pc), st), ChainPc(prog, gc.csl, pc + |gc.g.code|))
    decreases ClausesSize(next) + 1, 0
  {
    hide Reaches; hide GenS; hide SoundS; hide Unique; hide Target; hide Placed; hide GenClauses; hide Chains; hide DefaultFirst;
    var d := DefaultLabel(csl, n);
    var g1 := GenS(body, env, d + 1, true);
    var gc := GenClauses(next, env, DefaultNext(csl, n), d, g1.next, g1.control);
    DefaultShape(body, next, env, csl, dl, n, k);
    var head := DefaultFirst(csl, n) + [Label(d)];
    LayoutHead(prog, pc, head, g1.code, gc.g.code);
    PlacedSplit(prog, pc, DefaultFirst(csl, n), [Label(d)]);
    DefaultPass(csl, n, prog, pc, st);
    NextLabel(body, env, d + 1);
    ChainEnd(next, env, DefaultNext(csl, n), d, g1.next, g1.control, prog, pc + |head| + |g1.code|, st);
    ChainsTrans(prog, At(ChainPc(prog, csl, pc), st), At(Target(prog, DefaultNext(csl, n)), st),
                ChainPc(prog, gc.csl, pc + |head| + |g1.code| + |gc.g.code|));
  }

  /** Without a default among the clauses its label stays what it was. */
  lemma {:induction false} DefaultKept(cs: Clauses, env: Env, csl: nat, dl: nat, n: nat, k: bool)
    requires !HasDefault(cs)
    ensures GenClauses(cs, env, csl, dl, n, k).dl == dl
    decreases ClausesSize(cs)
  {
    hide GenS; hide CaseCode;
    if cs.Case? && cs.consts != [] {
      var g1 := GenS(cs.body, env, n + 2, true);
      DefaultKept(cs.next, env, n + 1, dl, g1.next, g1.control);
    }
  }

  /** Without a default nothing is run when nothing is listed. */
  lemma {:induction false} NoEntry(cs: Clauses, v: Word, cx: Ctx, m: Memory, fuel: nat)
    requires !HasDefault(cs)
    ensures RunClauses(cs, v, true, false, cx, m, fuel) == Normal(m)
    decreases ClausesSize(cs)
  {
    hide Run;
    if cs.Case? { NoEntry(cs.next, v, cx, m, fuel); }
  }

  /** What stands at the label of the default. */
  lemma DefaultAt(cs: Clauses, env: Env, csl: nat, dl: nat, n: nat, k: bool, v: Word, prog: seq<Instr>, pc: nat, cx: Ctx, st: Cpu, m: Memory, fuel: nat)
    requires SoundClauses(cs) && HasDefault(cs) && n > 0 && csl < n && Unique(prog)
    requires Placed(prog, pc, GenClauses(cs, env, csl, dl, n, k).g.code) && Ready(cx, st, m, NeedClauses(cs))
    ensures var gc := GenClauses(cs, env, csl, dl, n, k);
            var q := Target(prog, gc.dl);
            && gc.dl != 0 && q < |prog| && prog[q] == Label(gc.dl)
            && Simulates(prog, env, At(q, st), pc + |gc.g.code|, cx, gc.g.control, RunClauses(cs, v, true, false, cx, m, fuel))
    decreases fuel, ClausesSize(cs), 3
  {
    hide Reaches; hide GenS; hide SoundS; hide NeedS; hide Unique; hide Target; hide Agree; hide Simulates; hide Placed;
    hide Run; hide CaseCode; hide Listed; hide Max;
    if cs.Case? { DefaultLater(cs.consts, cs.body, cs.next, env, csl, dl, n, k, v, prog, pc, cx, st, m, fuel); }
    if cs.Default? { DefaultHere(cs.body, cs.next, env, csl, dl, n, k, v, prog, pc, cx, st, m, fuel); }
  }

  lemma DefaultLater(ks: seq<int>, body: Stmt, next: Clauses, env: Env, csl: nat, dl: nat, n: nat, k: bool, v: Word,
                     prog: seq<Instr>, pc: nat, cx: Ctx, st: Cpu, m: Memory, fuel: nat)
    requires var cs := Case(ks, body, next);
             && SoundClauses(cs) && HasDefault(cs) && n > 0 && csl < n && Unique(prog)
             && Placed(prog, pc, GenClauses(cs, env, csl, dl, n, k).g.code) && Ready(cx, st, m, NeedClauses(cs))
    ensures var cs := Case(ks, body, next);
            var gc := GenClauses(cs, env, csl, dl, n, k);
            var q := Target(prog, gc.dl);
            && gc.dl != 0 && q < |prog| && prog[q] == Label(gc.dl)
            && Simulates(prog, env, At(q, st), pc + |gc.g.code|, cx, gc.g.control, RunClauses(cs, v, true, false, cx, m, fuel))
    decreases fuel, StmtSize(body) + ClausesSize(next) + 1, 2
  {
    hide Reaches; hide GenS; hide SoundS; hide NeedS; hide Unique; hide Target; hide Agree; hide Simulates; hide Placed;
    hide Run; hide CaseCode; hide Listed; hide GenClauses;
    var g1 := GenS(body, env, n + 2, true);
    var gc := GenClauses(next, env, n + 1, dl, g1.next, g1.control);
    CaseShape(ks, body, next, env, csl, dl, n, k);
    var head := CaseCode(ks, csl, n, k);
    LayoutHead(prog, pc, head, g1.code, gc.g.code);
    NextLabel(body, env, n + 2);
    DefaultAt(next, env, n + 1, dl, g1.next, g1.control, v, prog, pc + |head| + |g1.code|, cx, st, m, fuel);
  }

  lemma DefaultHere(body: Stmt, next: Clauses, env: Env, csl: nat, dl: nat, n: nat, k: bool, v: Word,
                    prog: seq<Instr>, pc: nat, cx: Ctx, st: Cpu, m: Memory, fuel: nat)
    requires var cs := Default(body, next);
             && SoundClauses(cs) && n > 0 && csl < n && Unique(prog)
             && Placed(prog, pc, GenClauses(cs, env, csl, dl, n, k).g.code) && Ready(cx, st, m, NeedClauses(cs))
    ensures var cs := Default(body, next);
            var gc := GenClauses(cs, env, csl, dl, n, k);
            var q := Target(prog, gc.dl);
            && gc.dl != 0 && q < |prog| && prog[q] == Label(gc.dl)
            && Simulates(prog, env, At(q, st), pc + |gc.g.code|, cx, gc.g.control, RunClauses(cs, v, true, false, cx, m, fuel))
    decreases fuel, StmtSize(body) + ClausesSize(next) + 1, 2
  {
    hide Reaches; hide After; hide GenS; hide SoundS; hide NeedS; hide Unique; hide Target; hide Agree; hide Simulates; hide Placed;
    hide Run; hide GenClauses; hide Step; hide DefaultFirst;
    var d := DefaultLabel(csl, n);
    var g1 := GenS(body, env, d + 1, true);
    var gc := GenClauses(next, env, DefaultNext(csl, n), d, g1.next, g1.control);
    DefaultShape(body, next, env, csl, dl, n, k);
    DefaultKept(next, env, DefaultNext(csl, n), d, g1.next, g1.control);
    var head := DefaultFirst(csl, n) + [Label(d)];
    LayoutHead(prog, pc, head, g1.code, gc.g.code);
    Layout1(prog, pc, DefaultFirst(csl, n), Label(d));
    var q := pc + |DefaultFirst(csl, n)|;
    TargetHere(prog, q, d);
    LabelStep(prog, q, st);
    ReachesStep(prog, At(q, st));
    AfterRefl(cx, st, m);
    var end := pc + |head| + |g1.code| + |gc.g.code|;
    BodyThen(body, next, env, DefaultNext(csl, n), d, d + 1, v, true, prog, q + 1, cx, st, m, fuel);
    Prepend(prog, env, At(q, st), At(q + 1, st), end, cx, gc.g.control, m, RunClauses(Default(body, next), v, true, false, cx, m, fuel));
  }

  // ---------- switch ----------

  /** What a switch makes of the way its clauses ended. */
  function Left(f: Flow): Flow { if f.Brk? then Normal(f.m) else f }

  lemma SwitchEnd(prog: seq<Instr>, inner: Env, env: Env, a: Config, e: nat, cx: Ctx, k: bool, f: Flow)
    requires Simulates(prog, inner, a, e, cx, k, f) && inner.locals == env.locals && inner.cnt == env.cnt
    requires e + 1 < |prog| && (prog[e].Label? || prog[e].Equ?) && prog[e + 1].Label? && Target(prog, inner.brk) == e + 1
    ensures Simulates(prog, env, a, e + 2, cx, true, Left(f))
  {
    hide Gets; hide Target; hide Returns;
    if f.Normal? { GetsLabel(prog, a, e, cx, f.m); GetsLabel(prog, a, e + 1, cx, f.m); }
    if f.Brk? { GetsLabel(prog, a, e + 1, cx, f.m); }
  }

  function LastLabel(gc: GenC): Instr { if gc.dl != 0 then Equ(gc.csl, gc.dl) else Label(gc.csl) }

  /** The clauses of a switch and the label after them. */
  lemma ClausesAt(cs: Clauses, inner: Env, n: nat, prog: seq<Instr>, pc: nat, cx: Ctx, st: Cpu, m: Memory, fuel: nat)
    returns (k: bool)
    requires SoundClauses(cs) && !cs.End? && n > 0 && Unique(prog)
    requires Ready(cx, st, m, NeedClauses(cs))
    requires var gc := GenClauses(cs, inner, 0, 0, n, false);
             Placed(prog, pc, gc.g.code) && pc + |gc.g.code| < |prog| && prog[pc + |gc.g.code|] == LastLabel(gc)
    ensures var gc := GenClauses(cs, inner, 0, 0, n, false);
            Simulates(prog, inner, At(pc, st), pc + |gc.g.code|, cx, k,
                      RunClauses(cs, st.d, !Matches(cs, st.d), false, cx, m, fuel))
    decreases fuel, ClausesSize(cs), 5
  {
    hide Reaches; hide GenS; hide SoundS; hide NeedS; hide Unique; hide Target; hide Agree; hide Simulates; hide Placed;
    hide GenClauses; hide Chains; hide RunClauses; hide Matches; hide SoundClauses; hide NeedClauses; hide HasDefault;
    var gc := GenClauses(cs, inner, 0, 0, n, false);
    k := gc.g.control || (!Matches(cs, st.d) && !HasDefault(cs));
    if Matches(cs, st.d) {
      SeekAt(cs, inner, 0, 0, n, false, prog, pc, cx, st, m, fuel);
    } else {
      OpenLabel(cs, inner, 0, 0, n, false);
      ChainEnd(cs, inner, 0, 0, n, false, prog, pc, st);
      ChainPcOpen(prog, gc.csl, pc + |gc.g.code|);
      if HasDefault(cs) { EnterDefault(cs, inner, n, prog, pc, cx, st, m, fuel); }
      else { NoDefault(cs, inner, n, prog, pc, cx, st, m, fuel); }
    }
  }

  lemma ChainPcOpen(prog: seq<Instr>, csl: nat, pc: nat)
    requires csl != 0
    ensures ChainPc(prog, csl, pc) == Target(prog, csl)
  {}

  lemma EnterDefault(cs: Clauses, inner: Env, n: nat, prog: seq<Instr>, pc: nat, cx: Ctx, st: Cpu, m: Memory, fuel: nat)
    requires SoundClauses(cs) && HasDefault(cs) && n > 0 && Unique(prog) && Ready(cx, st, m, NeedClauses(cs))
    requires var gc := GenClauses(cs, inner, 0, 0, n, false);
             && Placed(prog, pc, gc.g.code) && pc + |gc.g.code| < |prog| && prog[pc + |gc.g.code|] == LastLabel(gc)
             && Chains(prog, At(pc, st), Target(prog, gc.csl))
    ensures var gc := GenClauses(cs, inner, 0, 0, n, false);
            Simulates(prog, inner, At(pc, st), pc + |gc.g.code|, cx, gc.g.control, RunClauses(cs, st.d, true, false, cx, m, fuel))
    decreases fuel, ClausesSize(cs), 4
  {
    hide Reaches; hide After; hide Unique; hide Target; hide Agree; hide Simulates; hide Placed; hide GenClauses; hide RunClauses;
    hide SoundClauses; hide NeedClauses; hide HasDefault; hide OnlyD; hide Ready;
    var gc := GenClauses(cs, inner, 0, 0, n, false);
    var end := pc + |gc.g.code|;
    var st1 :| Reaches(prog, At(pc, st), At(Target(prog, gc.csl), st1)) && OnlyD(st, st1) && st1.d == st.d;
    OnlyDReady(cx, st, st1, m, NeedClauses(cs));
    DefaultAt(cs, inner, 0, 0, n, false, st.d, prog, pc, cx, st1, m, fuel);
    var q := Target(prog, gc.dl);
    TargetEqu(prog, end, gc.csl, gc.dl, q);
    Prepend(prog, inner, At(pc, st), At(q, st1), end, cx, gc.g.control, m, RunClauses(cs, st.d, true, false, cx, m, fuel));
  }

  lemma NoDefault(cs: Clauses, inner: Env, n: nat, prog: seq<Instr>, pc: nat, cx: Ctx, st: Cpu, m: Memory, fuel: nat)
    requires !HasDefault(cs) && Unique(prog) && Ready(cx, st, m, 0)
    requires var gc := GenClauses(cs, inner, 0, 0, n, false);
             && pc + |gc.g.code| < |prog| && prog[pc + |gc.g.code|] == LastLabel(gc)
             && Chains(prog, At(pc, st), Target(prog, gc.csl))
    ensures var gc := GenClauses(cs, inner, 0, 0, n, false);
            Simulates(prog, inner, At(pc, st), pc + |gc.g.code|, cx, true, RunClauses(cs, st.d, true, false, cx, m, fuel))
  {
    hide Gets; hide Unique; hide Target; hide GenClauses; hide RunClauses; hide HasDefault; hide Chains; hide Agree;
    var gc := GenClauses(cs, inner, 0, 0, n, false);
    DefaultKept(cs, inner, 0, 0, n, false);
    NoEntry(cs, st.d, cx, m, fuel);
    TargetHere(prog, pc + |gc.g.code|, gc.csl);
    ChainsGets(prog, At(pc, st), pc + |gc.g.code|, cx, m);
  }

  lemma SimSwitch(e: Expr, cs: Clauses, env: Env, n: nat, prog: seq<Instr>, pc: nat, cx: Ctx, st: Cpu, m: Memory, fuel: nat)
    requires Sound(e) && SoundClauses(cs) && !cs.End? && Unique(prog) && Placed(prog, pc, GenS(Switch(e, cs), env, n, true).code)
    requires Ready(cx, st, m, Max(Need(e), NeedClauses(cs)))
    ensures var g := GenS(Switch(e, cs), env, n, true);
            Simulates(prog, env, At(pc, st), pc + |g.code|, cx, g.control, Run(Switch(e, cs), cx, m, fuel))
    decreases fuel, ClausesSize(cs) + 1, 0
  {
    hide Reaches; hide After; hide Eval; hide GenE; hide Sound; hide Need; hide Unique; hide Target; hide Agree; hide Simulates; hide Placed;
    hide GenClauses; hide Matches; hide RunClauses; hide SoundClauses; hide NeedClauses; hide Gets;
    var inner := env.(brk := n);
    var need := Max(Need(e), NeedClauses(cs));
    var g1 := GenE(e, n + 1, true);
    var gc := GenClauses(cs, inner, 0, 0, g1.next, false);
    var pc1 := pc + |g1.code|;
    var end := pc1 + |gc.g.code|;
    var r := Eval(e, cx, m);
    if r.Fault? {
      SimBad(prog, env, At(pc, st), end + 2, cx, true);
    } else {
      PlacedSplit(prog, pc, g1.code, gc.g.code + [LastLabel(gc), Label(n)]);
      Layout2(prog, pc1, gc.g.code, LastLabel(gc), Label(n));
      TargetHere(prog, end + 1, n);
      ExprAt(e, n + 1, true, prog, pc, cx, st, m);
      var st1 :| Reaches(prog, At(pc, st), At(pc1, st1)) && After(cx, st, st1, r.m) && st1.d == r.v;
      AfterReady(cx, st, m, need, st1, r.m);
      NextE(e, n + 1);
      var k := ClausesAt(cs, inner, g1.next, prog, pc1, cx, st1, r.m, fuel);
      var f := RunClauses(cs, r.v, !Matches(cs, r.v), false, cx, r.m, fuel);
      SwitchEnd(prog, inner, env, At(pc1, st1), end, cx, k, f);
      Prepend(prog, env, At(pc, st), At(pc1, st1), end + 2, cx, true, r.m, Left(f));
    }
  }

  lemma NextE(e: Expr, n: nat)
    ensures n <= GenE(e, n, true).next
  {
    hide GenE;
    OnceE(e, n, true);
    OnceOrder(GenE(e, n, true), n);
  }

  // ---------- the theorem ----------

  lemma SimJump(l: nat, env: Env, prog: seq<Instr>, pc: nat, cx: Ctx, st: Cpu, m: Memory)
    requires Placed(prog, pc, [Jmp(l)]) && Ready(cx, st, m, 0)
    ensures Gets(prog, At(pc, st), Target(prog, l), cx, m)
  {
    hide Gets; hide Placed; hide Target; hide Agree;
    PlacedLen(prog, pc, [Jmp(l)]);
    PlacedAt(prog, pc, [Jmp(l)], 0);
    GetsHere(prog, pc, cx, st, m);
    GetsJump(prog, At(pc, st), pc, l, cx, m);
  }

  lemma SimWhile(c: Expr, s1: Stmt, env: Env, n: nat, prog: seq<Instr>, pc: nat, cx: Ctx, st: Cpu, m: Memory, fuel: nat)
    requires SoundCond(c) && SoundS(s1) && Unique(prog) && Placed(prog, pc, GenS(While(c, s1), env, n, true).code)
    requires Ready(cx, st, m, Max(Need(c), NeedS(s1)))
    ensures Simulates(prog, env, At(pc, st), pc + |GenS(While(c, s1), env, n, true).code|, cx, true, RunWhile(c, s1, cx, m, fuel))
    decreases fuel, StmtSize(s1) + 1, 0
  {
    hide Agree; hide Simulates; hide Placed; hide GenB; hide SoundCond; hide SoundS; hide Need; hide NeedS; hide Unique; hide Eval; hide RunWhile;
    var g1 := GenB(c, false, n, n + 2, true);
    var g2 := GenS(s1, env.(brk := n, cnt := n + 1), g1.next, g1.control);
    WhilePlaced(prog, pc, g1.code, g2.code, n);
    WhileSim(c, s1, env, n, prog, pc, cx, st, m, fuel);
  }

  lemma SimDo(s1: Stmt, c: Expr, env: Env, n: nat, prog: seq<Instr>, pc: nat, cx: Ctx, st: Cpu, m: Memory, fuel: nat)
    requires SoundCond(c) && SoundS(s1) && Unique(prog) && Placed(prog, pc, GenS(DoWhile(s1, c), env, n, true).code)
    requires Ready(cx, st, m, Max(Need(c), NeedS(s1)))
    ensures Simulates(prog, env, At(pc, st), pc + |GenS(DoWhile(s1, c), env, n, true).code|, cx, true, RunDo(s1, c, cx, m, fuel))
    decreases fuel, StmtSize(s1) + 1, 0
  {
    hide Agree; hide Simulates; hide Placed; hide GenB; hide SoundCond; hide SoundS; hide Need; hide NeedS; hide Unique; hide Eval; hide RunDo;
    var inner := env.(brk := n, cnt := n + 1);
    var g1 := GenS(s1, inner, n + 3, true);
    var g2 := GenB(c, true, n + 2, g1.next, true);
    DoPlaced(prog, pc, g1.code, g2.code, n);
    NextLabel(s1, inner, n + 3);
    DoSim(s1, c, env, n, prog, pc, cx, st, m, fuel);
  }

  lemma ForShape(init: Opt, cond: Opt, step: Opt, s1: Stmt, env: Env, n: nat)
    ensures var g0 := GenOpt(init, n + 1, true);
            var g := GenS(For(init, cond, step, s1), env, n, true);
            g.code == g0.code + ForGen(cond, step, s1, env, n, g0.next).code && g.control
  {
    hide GenOpt; hide GenB; hide GenE;
  }

  lemma SimFor(init: Opt, cond: Opt, step: Opt, s1: Stmt, env: Env, n: nat, prog: seq<Instr>, pc: nat, cx: Ctx, st: Cpu, m: Memory, fuel: nat)
    requires SoundOpt(init) && SoundFor(cond, step, s1) && Unique(prog) && Placed(prog, pc, GenS(For(init, cond, step, s1), env, n, true).code)
    requires Ready(cx, st, m, Max(NeedOpt(init), ForNeed(cond, step, s1)))
    ensures Simulates(prog, env, At(pc, st), pc + |GenS(For(init, cond, step, s1), env, n, true).code|, cx, true,
                      Run(For(init, cond, step, s1), cx, m, fuel))
    decreases fuel, StmtSize(s1) + 1, 0
  {
    hide Agree; hide Simulates; hide Placed; hide GenS; hide GenE; hide Sound; hide SoundFor; hide Need; hide ForNeed; hide Unique; hide Eval;
    hide RunFor; hide Reaches; hide After; hide ForGen; hide ForLayout;
    var need := Max(NeedOpt(init), ForNeed(cond, step, s1));
    var g0 := GenOpt(init, n + 1, true);
    var fc := ForGen(cond, step, s1, env, n, g0.next);
    var pc1, end := pc + |g0.code|, pc + |g0.code| + |fc.code|;
    ForShape(init, cond, step, s1, env, n);
    PlacedSplit(prog, pc, g0.code, fc.code);
    ForPlaced(cond, step, s1, env, n, g0.next, prog, pc1);
    if init.None? {
      ForSim(cond, step, s1, env, n, g0.next, prog, pc1, cx, st, m, fuel);
    } else if Eval(init.e, cx, m).Fault? {
      SimBad(prog, env, At(pc, st), end, cx, true);
    } else {
      var r := Eval(init.e, cx, m);
      NextE(init.e, n + 1);
      ExprAt(init.e, n + 1, true, prog, pc, cx, st, m);
      var st1 :| Reaches(prog, At(pc, st), At(pc1, st1)) && After(cx, st, st1, r.m);
      AfterReady(cx, st, m, need, st1, r.m);
      ForSim(cond, step, s1, env, n, g0.next, prog, pc1, cx, st1, r.m, fuel);
      Prepend(prog, env, At(pc, st), At(pc1, st1), end, cx, true, r.m, RunFor(cond, step, s1, cx, r.m, fuel));
    }
  }

  /** Running the code of a statement, placed anywhere in a program without double labels,
      does what the statement does, with S, U and Y back at its end and at every jump out. */
  lemma StmtCorrect(s: Stmt, env: Env, n: nat, prog: seq<Instr>, pc: nat, cx: Ctx, st: Cpu, m: Memory, fuel: nat)
    requires SoundS(s) && Unique(prog) && Placed(prog, pc, GenS(s, env, n, true).code)
    requires Ready(cx, st, m, NeedS(s))
    ensures var g := GenS(s, env, n, true);
            Simulates(prog, env, At(pc, st), pc + |g.code|, cx, g.control, Run(s, cx, m, fuel))
    decreases fuel, StmtSize(s), 1
  {
    hide Agree; hide Simulates; hide Placed; hide GenE; hide GenB; hide GenOpt; hide GenClauses; hide Sound; hide SoundCond; hide SoundOpt;
    hide Need; hide NeedOpt; hide Unique; hide Eval; hide RunFor; hide RunWhile; hide RunDo; hide RunClauses; hide Epilogue;
    match s
    case Skip =>
      GetsHere(prog, pc, cx, st, m);
      SimNormal(prog, env, At(pc, st), pc, cx, m);
    case ExprS(e) => SimExpr(e, env, n, prog, pc, cx, st, m, fuel);
    case Seq(s1, s2) => SimSeq(s1, s2, env, n, prog, pc, cx, st, m, fuel);
    case If(c, s1) => SimIf(c, s1, env, n, prog, pc, cx, st, m, fuel);
    case IfElse(c, s1, s2) => SimIfElse(c, s1, s2, env, n, prog, pc, cx, st, m, fuel);
    case While(c, s1) => SimWhile(c, s1, env, n, prog, pc, cx, st, m, fuel);
    case WhileNull(c) => NullSim(c, env, n, prog, pc, cx, st, m, fuel);
    case DoWhile(s1, c) => SimDo(s1, c, env, n, prog, pc, cx, st, m, fuel);
    case For(init, cond, step, s1) => SimFor(init, cond, step, s1, env, n, prog, pc, cx, st, m, fuel);
    case Switch(e, cs) => SimSwitch(e, cs, env, n, prog, pc, cx, st, m, fuel);
    case Break => SimBreak(env, n, prog, pc, cx, st, m, fuel);
    case Continue => SimContinue(env, n, prog, pc, cx, st, m, fuel);
    case Return(r) => SimReturn(r, env, n, prog, pc, cx, st, m, fuel);
  }

  lemma SimBreak(env: Env, n: nat, prog: seq<Instr>, pc: nat, cx: Ctx, st: Cpu, m: Memory, fuel: nat)
    requires Placed(prog, pc, [Jmp(env.brk)]) && Ready(cx, st, m, 0)
    ensures Simulates(prog, env, At(pc, st), pc + 1, cx, false, Run(Break, cx, m, fuel))
  {
    hide Gets; hide Placed; hide Target; hide Agree;
    SimJump(env.brk, env, prog, pc, cx, st, m);
  }

  lemma SimContinue(env: Env, n: nat, prog: seq<Instr>, pc: nat, cx: Ctx, st: Cpu, m: Memory, fuel: nat)
    requires Placed(prog, pc, [Jmp(env.cnt)]) && Ready(cx, st, m, 0)
    ensures Simulates(prog, env, At(pc, st), pc + 1, cx, false, Run(Continue, cx, m, fuel))
  {
    hide Gets; hide Placed; hide Target; hide Agree;
    SimJump(env.cnt, env, prog, pc, cx, st, m);
  }
}
