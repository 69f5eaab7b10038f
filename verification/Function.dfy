/** A whole function: entry, body and return. */
module Function {
  import opened Machine
  import opened Engine
  import opened Source
  import opened CodeGen
  import opened Statements
  import opened ExprProof
  import opened Control
  import opened Program
  import opened StmtLabels
  import opened StmtProof
  import opened Fuel

  function PoppedBytes(regs: Popped): nat {
    match regs
    case NoRegs => 0
    case PopA => 1
    case PopD => 2
    case PopX => 2
    case PopAX => 3
    case PopDX => 4
  }

  /** D after the registers were popped from s. */
  function PoppedD(regs: Popped, st: Cpu): Word {
    match regs
    case NoRegs => st.d
    case PopX => st.d
    case PopA => Join(st.mem[st.s], st.B())
    case PopAX => Join(st.mem[st.s], st.B())
    case PopD => ReadWord(st.mem, st.s)
    case PopDX => ReadWord(st.mem, st.s)
  }

  function PoppedX(regs: Popped, st: Cpu): Word {
    match regs
    case NoRegs => st.x
    case PopA => st.x
    case PopD => st.x
    case PopX => ReadWord(st.mem, st.s)
    case PopAX => ReadWord(st.mem, Wrap(st.s + 1))
    case PopDX => ReadWord(st.mem, Wrap(st.s + 2))
  }

  /** PULS regs,U,PC: registers are pulled in the order D, X, U, PC from increasing
      addresses.  The result is the new program counter and the new state. */
  function Returned(regs: Popped, st: Cpu): (Word, Cpu) {
    var s := Wrap(st.s + PoppedBytes(regs));
    (ReadWord(st.mem, Wrap(s + 2)),
     st.(d := PoppedD(regs, st), x := PoppedX(regs, st), u := ReadWord(st.mem, s), s := Wrap(s + 4)))
  }

  /** How many bytes of A, of B and of X a return pulls. */
  function PulledBytes(regs: Popped): (nat, nat, nat) {
    (if regs.PopA? || regs.PopAX? || regs.PopD? || regs.PopDX? then 1 else 0, if regs.PopD? || regs.PopDX? then 1 else 0,
     if regs.PopX? || regs.PopAX? || regs.PopDX? then 2 else 0)
  }

  /** A, B, X, U and PC follow each other from S on, without those that are not pulled. */
  lemma PulsTakes(regs: Popped, st: Cpu)
    requires st.s + 8 < 0x1_0000
    ensures var (pc, r) := Returned(regs, st);
            var (a, b, x) := PulledBytes(regs);
            && r.A() == (if a > 0 then st.mem[st.s] else st.A()) && r.B() == (if b > 0 then st.mem[st.s + a] else st.B())
            && r.x == (if x > 0 then ReadWord(st.mem, st.s + a + b) else st.x)
            && r.u == ReadWord(st.mem, st.s + a + b + x) && pc == ReadWord(st.mem, st.s + a + b + x + 2)
            && r.s == st.s + a + b + x + 4 && r.mem == st.mem && r.y == st.y
  {
    hide ReadWord; hide Join;
    PulledD(regs, st);
  }

  lemma PulledD(regs: Popped, st: Cpu)
    requires st.s + 1 < 0x1_0000
    ensures var d := PoppedD(regs, st);
            var (a, b, _) := PulledBytes(regs);
            && d / 0x100 == (if a > 0 then st.mem[st.s] else st.A()) && d % 0x100 == (if b > 0 then st.mem[st.s + a] else st.B())
  {
    hide Join;
    JoinParts(st.mem[st.s], st.B());
    JoinParts(st.mem[st.s], st.mem[st.s + 1]);
  }

  function Prologue(locals: nat): seq<Instr> {
    [PshsU, LeauS] + if locals != 0 then [Leas(OffS(-(locals as int)))] else []
  }

  /** `fdecl`: entry, body, and a return when the end of the body can be reached. */
  function GenF(body: Stmt, locals: nat, n: nat): Gen {
    var g := GenS(body, Env(0, 0, locals), n, true);
    Gen(Prologue(locals) + (g.code + (if g.control then Epilogue(locals, false) else [])), g.next, false)
  }

  /** The context of the body when S is s at entry: the frame starts below the return
      address, scratch memory below the locals. */
  function FrameOf(st: Cpu, locals: nat, lo: int): Ctx
    requires 2 <= st.s
  {
    Ctx(st.y, st.s - 2, lo, st.s - 2 - locals)
  }

  /** Memory after the entry code. */
  function Entered(st: Cpu): Memory
    requires 2 <= st.s
  {
    WriteWord(st.mem, st.s - 2, st.u)
  }

  /** The four bytes that the return uses are the ones saved at entry. */
  ghost predicate FrameIntact(st: Cpu, m: Memory)
    requires 2 <= st.s <= 0xfffe
  {
    forall a :: st.s - 2 <= a < st.s + 2 ==> m[a] == Entered(st)[a]
  }

  lemma EnterAt(prog: seq<Instr>, pc: nat, locals: nat, st: Cpu)
    requires Placed(prog, pc, Prologue(locals)) && 2 + locals <= st.s
    ensures exists st1 ::
      && Reaches(prog, At(pc, st), At(pc + |Prologue(locals)|, st1))
      && st1.y == st.y && st1.u == st.s - 2 && st1.s == st.s - 2 - locals && st1.mem == Entered(st)
  {
    hide Reaches; hide Do; hide Placed; hide Step; hide Entered;
    var p := Prologue(locals);
    PlacedLen(prog, pc, p);
    PlacedAt(prog, pc, p, 0);
    PlacedAt(prog, pc, p, 1);
    var sa := Do(PshsU, st);
    var sb := Do(LeauS, sa);
    var sc := Do(Leas(OffS(-(locals as int))), sb);
    PrologueDoes(locals, st);
    StraightStep(prog, pc, st);
    StraightStep(prog, pc + 1, sa);
    ReachesStep(prog, At(pc, st));
    ReachesStep(prog, At(pc + 1, sa));
    ReachesTrans(prog, At(pc, st), At(pc + 1, sa), At(pc + 2, sb));
    if locals != 0 {
      PlacedAt(prog, pc, p, 2);
      StraightStep(prog, pc + 2, sb);
      ReachesStep(prog, At(pc + 2, sb));
      ReachesTrans(prog, At(pc, st), At(pc + 2, sb), At(pc + 3, sc));
    }
  }

  lemma PrologueDoes(locals: nat, st: Cpu)
    requires 2 + locals <= st.s
    ensures var sb := Do(LeauS, Do(PshsU, st));
            && sb.y == st.y && sb.u == st.s - 2 && sb.s == st.s - 2 && sb.mem == Entered(st)
            && var sc := Do(Leas(OffS(-(locals as int))), sb);
               sc.y == st.y && sc.u == st.s - 2 && sc.s == st.s - 2 - locals && sc.mem == Entered(st)
  {}

  /** What the caller sees after the return: its own S, U and Y, the result in D and the
      memory that the source program leaves outside scratch memory. */
  ghost predicate Back(cx: Ctx, st: Cpu, r: (Word, Cpu), v: Opt16, m: Memory) {
    && r.0 == ReadWord(st.mem, st.s)
    && r.1.s == Wrap(st.s + 2) && r.1.u == st.u && r.1.y == st.y
    && Agree(cx, r.1.mem, m)
    && (v.Value? ==> r.1.d == v.w)
  }

  lemma ReturnedFields(regs: Popped, st: Cpu, base: Word)
    requires PoppedBytes(regs) + st.s == base <= 0xfffc
    ensures var r := Returned(regs, st);
            && r.0 == ReadWord(st.mem, base + 2) && r.1.u == ReadWord(st.mem, base)
            && r.1.s == Wrap(base + 4) && r.1.y == st.y && r.1.mem == st.mem
            && (regs.NoRegs? || regs.PopX? ==> r.1.d == st.d)
  {
    hide ReadWord;
  }

  lemma ReturnValues(st: Cpu, st1: Cpu, regs: Popped, locals: nat, lo: int, v: Opt16, m: Memory)
    requires 2 + locals <= st.s <= 0xfffe && 0 <= lo <= st.s - 2 - locals && FrameIntact(st, m)
    requires var cx := FrameOf(st, locals, lo);
             st1.y == cx.y && st1.u == cx.u && Agree(cx, st1.mem, m)
    requires PoppedBytes(regs) + st1.s == st.s - 2
    requires v.Value? ==> st1.d == v.w && (regs.NoRegs? || regs.PopX?)
    ensures Back(FrameOf(st, locals, lo), st, Returned(regs, st1), v, m)
  {
    hide Agree; hide Returned; hide ReadWord; hide WriteWord;
    AgreeFrame(st, st1.mem, locals, lo, m);
    ReturnedFields(regs, st1, st.s - 2);
    ReadBack(st.mem, st.s - 2, st.u);
  }

  lemma AgreeFrame(st: Cpu, mem: Memory, locals: nat, lo: int, m: Memory)
    requires 2 + locals <= st.s <= 0xfffe && 0 <= lo <= st.s - 2 - locals && FrameIntact(st, m)
    requires Agree(FrameOf(st, locals, lo), mem, m)
    ensures forall a :: st.s - 2 <= a < st.s + 2 ==> mem[a] == Entered(st)[a]
    ensures ReadWord(mem, st.s - 2) == ReadWord(Entered(st), st.s - 2)
    ensures ReadWord(mem, st.s) == ReadWord(st.mem, st.s)
  {
    var cx := FrameOf(st, locals, lo);
    forall a | st.s - 2 <= a < st.s + 2 ensures mem[a] == Entered(st)[a] { assert Free(cx, a); }
  }

  /** From the return sequence to the return instruction. */
  lemma EpilogueAt(prog: seq<Instr>, q: nat, st: Cpu, st1: Cpu, locals: nat, lo: int, v: Opt16, m: Memory) returns (r: nat, st2: Cpu)
    requires 2 + locals <= st.s <= 0xfffe && 0 <= lo <= st.s - 2 - locals && FrameIntact(st, m)
    requires var cx := FrameOf(st, locals, lo);
             st1.y == cx.y && st1.u == cx.u && st1.s == cx.hi && Agree(cx, st1.mem, m)
    requires Placed(prog, q, Epilogue(locals, v.Value?)) && (v.Value? ==> st1.d == v.w)
    ensures Reaches(prog, At(q, st1), At(r, st2)) && r < |prog| && prog[r].Puls?
    ensures Back(FrameOf(st, locals, lo), st, Returned(prog[r].regs, st2), v, m)
  {
    hide Reaches; hide Agree; hide Returned; hide Back; hide FrameIntact;
    var e := Epilogue(locals, v.Value?);
    PlacedLen(prog, q, e);
    PlacedAt(prog, q, e, 0);
    if e[0].Puls? {
      r, st2 := q, st1;
      ReachesRefl(prog, At(q, st1));
      ReturnValues(st, st2, e[0].regs, locals, lo, v, m);
    } else {
      PlacedAt(prog, q, e, 1);
      r, st2 := q + 1, Do(LeasU, st1);
      StraightStep(prog, q, st1);
      ReachesStep(prog, At(q, st1));
      ReturnValues(st, st2, NoRegs, locals, lo, v, m);
    }
  }

  /**
    A function called with S at the return address returns to it when the body, run as a
    source program, returns or falls off its end without writing over the saved frame
    pointer and the return address.  The caller gets back its S, U and Y, the result in D
    and the source program's memory.
   */
  lemma FunctionCorrect(body: Stmt, locals: nat, n: nat, prog: seq<Instr>, pc: nat, st: Cpu, lo: int, m: Memory, fuel: nat)
    requires SoundS(body) && Unique(prog) && Placed(prog, pc, GenF(body, locals, n).code)
    requires 0 <= lo && lo + NeedS(body) + locals + 2 <= st.s <= 0xfffe
    requires Agree(FrameOf(st, locals, lo), Entered(st), m)
    ensures var cx := FrameOf(st, locals, lo);
            var f := Run(body, cx, m, fuel);
            (f.Normal? || f.Ret?) && FrameIntact(st, f.m) ==>
              exists q: nat, st1 ::
                && Reaches(prog, At(pc, st), At(q, st1)) && q < |prog| && prog[q].Puls?
                && Back(cx, st, Returned(prog[q].regs, st1), if f.Ret? then f.v else NoValue, f.m)
  {
    hide Reaches; hide Agree; hide Back; hide Returned; hide FrameIntact; hide Epilogue; hide Unique; hide Placed; hide GenS;
    hide SoundS; hide NeedS; hide Run; hide Prologue; hide Target; hide Entered; hide FrameOf;
    var cx := FrameOf(st, locals, lo);
    var f := Run(body, cx, m, fuel);
    var g := GenS(body, Env(0, 0, locals), n, true);
    var p := Prologue(locals);
    LayoutHead(prog, pc, p, g.code, if g.control then Epilogue(locals, false) else []);
    PlacedSplit(prog, pc + |p|, g.code, if g.control then Epilogue(locals, false) else []);
    EnterAt(prog, pc, locals, st);
    var st0 :| Reaches(prog, At(pc, st), At(pc + |p|, st0))
      && st0.y == st.y && st0.u == st.s - 2 && st0.s == st.s - 2 - locals && st0.mem == Entered(st);
    if (f.Normal? || f.Ret?) && FrameIntact(st, f.m) {
      FrameFields(st, locals, lo);
      StmtCorrect(body, Env(0, 0, locals), n, prog, pc + |p|, cx, st0, m, fuel);
      var v := if f.Ret? then f.v else NoValue;
      var q, st1 := BodyReturns(prog, Env(0, 0, locals), At(pc + |p|, st0), pc + |p| + |g.code|, cx, g.control, f);
      ReachesTrans(prog, At(pc, st), At(pc + |p|, st0), At(q, st1));
      var r, st2 := EpilogueAt(prog, q, st, st1, locals, lo, v, f.m);
      ReachesTrans(prog, At(pc, st), At(q, st1), At(r, st2));
    }
  }

  /** When the body never ends the compiled function never stops: it makes any number of
      steps without getting to a return instruction or off the program. */
  lemma FunctionDiverges(body: Stmt, locals: nat, n: nat, prog: seq<Instr>, pc: nat, st: Cpu, lo: int, m: Memory)
    requires SoundS(body) && Unique(prog) && Placed(prog, pc, GenF(body, locals, n).code)
    requires 0 <= lo && lo + NeedS(body) + locals + 2 <= st.s <= 0xfffe
    requires Agree(FrameOf(st, locals, lo), Entered(st), m)
    requires forall fuel: nat :: Run(body, FrameOf(st, locals, lo), m, fuel).Timeout?
    ensures forall k: nat :: Long(prog, At(pc, st), k)
  {
    hide Reaches; hide Agree; hide Epilogue; hide Unique; hide Placed; hide GenS; hide Long;
    hide SoundS; hide NeedS; hide Run; hide Prologue; hide Target; hide Entered; hide FrameOf;
    var cx := FrameOf(st, locals, lo);
    var g := GenS(body, Env(0, 0, locals), n, true);
    var p := Prologue(locals);
    LayoutHead(prog, pc, p, g.code, if g.control then Epilogue(locals, false) else []);
    PlacedSplit(prog, pc + |p|, g.code, if g.control then Epilogue(locals, false) else []);
    EnterAt(prog, pc, locals, st);
    var st0 :| Reaches(prog, At(pc, st), At(pc + |p|, st0))
      && st0.y == st.y && st0.u == st.s - 2 && st0.s == st.s - 2 - locals && st0.mem == Entered(st);
    FrameFields(st, locals, lo);
    forall k: nat ensures Long(prog, At(pc, st), k) {
      var f := Run(body, cx, m, k);
      StmtCorrect(body, Env(0, 0, locals), n, prog, pc + |p|, cx, st0, m, k);
      TimeoutRounds(body, cx, m, k);
      LongBefore(prog, At(pc, st), At(pc + |p|, st0), f.rounds);
      LongLess(prog, At(pc, st), if |p| > 0 then f.rounds + 1 else f.rounds, k);
    }
  }

  lemma FrameFields(st: Cpu, locals: nat, lo: int)
    requires 2 <= st.s
    ensures var cx := FrameOf(st, locals, lo); cx.y == st.y && cx.u == st.s - 2 && cx.lo == lo && cx.hi == st.s - 2 - locals
  {}

  /** However the body returns, a return sequence stands where it gets to. */
  lemma BodyReturns(prog: seq<Instr>, env: Env, a: Config, e: nat, cx: Ctx, k: bool, f: Flow) returns (q: nat, st1: Cpu)
    requires Simulates(prog, env, a, e, cx, k, f) && (f.Normal? || f.Ret?)
    requires k ==> Placed(prog, e, Epilogue(env.locals, false))
    ensures var v := if f.Ret? then f.v else NoValue;
            && Reaches(prog, a, At(q, st1)) && After(cx, a.st, st1, f.m)
            && Placed(prog, q, Epilogue(env.locals, v.Value?)) && (v.Value? ==> st1.d == v.w)
  {
    hide Reaches; hide After; hide Placed; hide Epilogue; hide Target;
    if f.Ret? {
      q, st1 :| Reaches(prog, a, At(q, st1)) && After(cx, a.st, st1, f.m)
        && Placed(prog, q, Epilogue(env.locals, f.v.Value?)) && (f.v.Value? ==> st1.d == f.v.w);
    } else {
      q := e;
      st1 :| Reaches(prog, a, At(e, st1)) && After(cx, a.st, st1, f.m);
    }
  }

  // ---------- a function by itself ----------

  lemma OnceProlog(locals: nat, n: nat)
    ensures Once(Prologue(locals), n, n)
  {
    var p := Prologue(locals);
    forall l: nat ensures Intros(p, l) == 0 {
      Intros2(PshsU, LeauS, l);
      var lift := Leas(OffS(-(locals as int)));
      Intros1(lift, l);
      IntrosAppend([PshsU, LeauS], if locals != 0 then [lift] else [], l);
      IntrosNone(l);
    }
  }

  /** Every label of a compiled function is introduced once. */
  lemma FunctionLabels(body: Stmt, locals: nat, n: nat)
    requires SoundS(body)
    ensures Once(GenF(body, locals, n).code, n, GenF(body, locals, n).next)
  {
    hide Once; hide GenS; hide SoundS; hide Epilogue; hide Prologue;
    var g := GenS(body, Env(0, 0, locals), n, true);
    var tail := if g.control then Epilogue(locals, false) else [];
    OnceProlog(locals, n);
    LabelsS(body, Env(0, 0, locals), n, true);
    if g.control { OnceEpilogue(locals, false, g.next); } else { OnceNone(g.next); }
    OnceJoin(g.code, tail, n, g.next, g.next);
    OnceJoin(Prologue(locals), g.code + tail, n, n, g.next);
  }

  /** So a compiled function that is the whole program does what its body says. */
  lemma CompiledFunction(body: Stmt, locals: nat, n: nat, st: Cpu, lo: int, m: Memory, fuel: nat)
    requires SoundS(body) && 0 <= lo && lo + NeedS(body) + locals + 2 <= st.s <= 0xfffe
    requires Agree(FrameOf(st, locals, lo), Entered(st), m)
    ensures var prog := GenF(body, locals, n).code;
            var cx := FrameOf(st, locals, lo);
            var f := Run(body, cx, m, fuel);
            (f.Normal? || f.Ret?) && FrameIntact(st, f.m) ==>
              exists q: nat, st1 ::
                && Reaches(prog, At(0, st), At(q, st1)) && q < |prog| && prog[q].Puls?
                && Back(cx, st, Returned(prog[q].regs, st1), if f.Ret? then f.v else NoValue, f.m)
  {
    hide Agree; hide Reaches; hide Back; hide Returned; hide FrameIntact; hide GenF; hide SoundS; hide NeedS; hide Run; hide Unique;
    hide Entered; hide FrameOf; hide Once;
    var prog := GenF(body, locals, n).code;
    FunctionLabels(body, locals, n);
    OnceUnique(prog, n, GenF(body, locals, n).next);
    assert prog[0..0 + |prog|] == prog;
    FunctionCorrect(body, locals, n, prog, 0, st, lo, m, fuel);
  }

  /** The caller's stack has room, and m is memory as the source sees it. */
  ghost predicate Callable(body: Stmt, locals: nat, st: Cpu, lo: int, m: Memory) {
    0 <= lo && lo + NeedS(body) + locals + 2 <= st.s <= 0xfffe && Agree(FrameOf(st, locals, lo), Entered(st), m)
  }

  /** Called in st the program returns with the body's value and memory, or runs on for ever if
      the body does. */
  ghost predicate Serves(prog: seq<Instr>, body: Stmt, locals: nat, st: Cpu, lo: int, m: Memory)
    requires 2 <= st.s <= 0xfffe
  {
    var cx := FrameOf(st, locals, lo);
    && (forall fuel: nat :: var f := Run(body, cx, m, fuel); (f.Normal? || f.Ret?) && FrameIntact(st, f.m) ==>
          exists q: nat, st1 ::
            && Reaches(prog, At(0, st), At(q, st1)) && q < |prog| && prog[q].Puls?
            && Back(cx, st, Returned(prog[q].regs, st1), if f.Ret? then f.v else NoValue, f.m))
    && ((forall fuel: nat :: Run(body, cx, m, fuel).Timeout?) ==> forall k: nat :: Long(prog, At(0, st), k))
  }

  /** Every call of the program is a call of the body. */
  ghost predicate Implements(prog: seq<Instr>, body: Stmt, locals: nat) {
    forall st: Cpu, lo: int, m: Memory :: Callable(body, locals, st, lo, m) ==> Serves(prog, body, locals, st, lo, m)
  }

  lemma CompiledImplements(body: Stmt, locals: nat, n: nat)
    requires SoundS(body)
    ensures Implements(GenF(body, locals, n).code, body, locals)
  {
    hide Agree; hide Reaches; hide Back; hide Returned; hide FrameIntact; hide GenF; hide SoundS; hide NeedS; hide Run; hide Unique;
    hide Entered; hide FrameOf; hide Long; hide Once;
    var prog := GenF(body, locals, n).code;
    forall st: Cpu, lo: int, m: Memory | Callable(body, locals, st, lo, m) ensures Serves(prog, body, locals, st, lo, m) {
      forall fuel: nat { CompiledFunction(body, locals, n, st, lo, m, fuel); }
      if forall fuel: nat :: Run(body, FrameOf(st, locals, lo), m, fuel).Timeout? {
        FunctionLabels(body, locals, n);
        OnceUnique(prog, n, GenF(body, locals, n).next);
        assert prog[0..0 + |prog|] == prog;
        FunctionDiverges(body, locals, n, prog, 0, st, lo, m);
      }
    }
  }
}
