/** Labels of statements: each one taken from the counter is introduced exactly once. */
module StmtLabels {
  import opened Machine
  import opened Engine
  import opened Source
  import opened CodeGen
  import opened Labels
  import opened Statements
  import opened Program

  /** How often a label is introduced, by itself or by EQU. */
  function Intros(code: seq<Instr>, l: nat): nat {
    if code == [] then 0 else (if Marks(code[0], l) then 1 else 0) + Intros(code[1..], l)
  }

  lemma {:induction false} IntrosAppend(c1: seq<Instr>, c2: seq<Instr>, l: nat)
    ensures Intros(c1 + c2, l) == Intros(c1, l) + Intros(c2, l)
  {
    if c1 == [] {
      assert c1 + c2 == c2;
    } else {
      assert (c1 + c2)[1..] == c1[1..] + c2;
      IntrosAppend(c1[1..], c2, l);
    }
  }

  lemma Intros1(i: Instr, l: nat)
    ensures Intros([i], l) == if Marks(i, l) then 1 else 0
  {
    assert [i][1..] == [];
  }

  lemma Intros2(i: Instr, j: Instr, l: nat)
    ensures Intros([i, j], l) == (if Marks(i, l) then 1 else 0) + (if Marks(j, l) then 1 else 0)
  {
    assert [i, j][1..] == [j];
    Intros1(j, l);
  }

  /** The labels lo..hi are introduced once each, no others. */
  ghost predicate Once(code: seq<Instr>, lo: nat, hi: nat) {
    lo <= hi && forall l: nat :: Intros(code, l) == if lo <= l < hi then 1 else 0
  }

  lemma {:induction false} IntrosDefs(code: seq<Instr>, l: nat)
    requires forall i :: i in code ==> !i.Equ?
    ensures Intros(code, l) == Defs(code, l)
  {
    if code != [] {
      assert code == [code[0]] + code[1..];
      IntrosDefs(code[1..], l);
    }
  }

  /** Expression code in these terms. */
  lemma OnceFresh(g: Gen, n: nat, ext: set<nat>)
    requires Fresh(g, n, ext)
    ensures Once(g.code, n, g.next)
  {
    forall l: nat ensures Intros(g.code, l) == if n <= l < g.next then 1 else 0 { IntrosDefs(g.code, l); }
  }

  lemma OnceE(e: Expr, n: nat, k: bool)
    ensures Once(GenE(e, n, k).code, n, GenE(e, n, k).next)
  {
    hide GenE; hide Fresh; hide Once;
    LabelsE(e, n, k);
    OnceFresh(GenE(e, n, k), n, {});
  }

  lemma OnceB(e: Expr, cond: bool, l: nat, n: nat, k: bool)
    ensures Once(GenB(e, cond, l, n, k).code, n, GenB(e, cond, l, n, k).next)
  {
    hide GenB; hide Fresh; hide Once;
    LabelsB(e, cond, l, n, k);
    OnceFresh(GenB(e, cond, l, n, k), n, {l});
  }

  lemma OnceNone(n: nat)
    ensures Once([], n, n)
  {}

  lemma OnceOpt(o: Opt, n: nat, k: bool)
    ensures Once(GenOpt(o, n, k).code, n, GenOpt(o, n, k).next)
  {
    hide GenE; hide Once;
    if o.Some? { OnceE(o.e, n, k); } else { OnceNone(n); }
  }

  lemma OnceJoin(c1: seq<Instr>, c2: seq<Instr>, lo: nat, mid: nat, hi: nat)
    requires Once(c1, lo, mid) && Once(c2, mid, hi)
    ensures Once(c1 + c2, lo, hi)
  {
    hide Intros;
    forall l: nat ensures Intros(c1 + c2, l) == if lo <= l < hi then 1 else 0 { IntrosAppend(c1, c2, l); }
  }

  /** Number of introductions in a code built from pieces: a sum. */
  lemma Sum3(c1: seq<Instr>, c2: seq<Instr>, c3: seq<Instr>, l: nat)
    ensures Intros(c1 + (c2 + c3), l) == Intros(c1, l) + Intros(c2, l) + Intros(c3, l)
  {
    IntrosAppend(c1, c2 + c3, l);
    IntrosAppend(c2, c3, l);
  }

  lemma OnceIf(c1: seq<Instr>, c2: seq<Instr>, n: nat, mid: nat, hi: nat)
    requires Once(c1, n + 1, mid) && Once(c2, mid, hi)
    ensures Once(c1 + (c2 + [Label(n)]), n, hi)
  {
    hide Intros;
    forall l: nat ensures Intros(c1 + (c2 + [Label(n)]), l) == if n <= l < hi then 1 else 0 {
      Sum3(c1, c2, [Label(n)], l);
      Intros1(Label(n), l);
    }
  }

  lemma OnceElse(c1: seq<Instr>, c2: seq<Instr>, c3: seq<Instr>, n: nat, p: nat, q: nat, hi: nat)
    requires Once(c1, n + 1, p) && Once(c2, p, q)
    ensures Once(c3, q + 1, hi) ==> Once(c1 + (c2 + ([Jmp(q), Label(n)] + (c3 + [Label(q)]))), n, hi)
    ensures Once(c3, q, hi) ==> Once(c1 + (c2 + ([Label(n)] + c3)), n, hi)
  {
    hide Intros;
    forall l: nat ensures
      Intros(c1 + (c2 + ([Jmp(q), Label(n)] + (c3 + [Label(q)]))), l)
      == Intros(c1, l) + Intros(c2, l) + Intros(c3, l) + (if l == n then 1 else 0) + (if l == q then 1 else 0) {
      Sum3(c1, c2, [Jmp(q), Label(n)] + (c3 + [Label(q)]), l);
      Sum3([Jmp(q), Label(n)], c3, [Label(q)], l);
      Intros2(Jmp(q), Label(n), l);
      Intros1(Label(q), l);
    }
    forall l: nat ensures
      Intros(c1 + (c2 + ([Label(n)] + c3)), l) == Intros(c1, l) + Intros(c2, l) + Intros(c3, l) + (if l == n then 1 else 0) {
      Sum3(c1, c2, [Label(n)] + c3, l);
      IntrosAppend([Label(n)], c3, l);
      Intros1(Label(n), l);
    }
  }

  /** While: head label h, two pieces, jump, end label. */
  lemma OnceWhile(c1: seq<Instr>, c2: seq<Instr>, h: nat, n: nat, mid: nat, hi: nat, lo: nat)
    requires Once(c1, lo, mid) && Once(c2, mid, hi)
    ensures forall l: nat :: Intros([Label(h)] + (c1 + (c2 + [Jmp(h), Label(n)])), l)
              == (if lo <= l < hi then 1 else 0) + (if l == h then 1 else 0) + (if l == n then 1 else 0)
  {
    hide Intros;
    forall l: nat ensures Intros([Label(h)] + (c1 + (c2 + [Jmp(h), Label(n)])), l)
              == (if lo <= l < hi then 1 else 0) + (if l == h then 1 else 0) + (if l == n then 1 else 0) {
      Sum3([Label(h)], c1, c2 + [Jmp(h), Label(n)], l);
      IntrosAppend(c2, [Jmp(h), Label(n)], l);
      Intros1(Label(h), l);
      Intros2(Jmp(h), Label(n), l);
    }
  }

  lemma OnceDo(c1: seq<Instr>, c2: seq<Instr>, n: nat, mid: nat, hi: nat)
    requires Once(c1, n + 3, mid) && Once(c2, mid, hi)
    ensures Once([Label(n + 2)] + (c1 + ([Label(n + 1)] + (c2 + [Label(n)]))), n, hi)
  {
    hide Intros;
    var c := [Label(n + 2)] + (c1 + ([Label(n + 1)] + (c2 + [Label(n)])));
    forall l: nat ensures Intros(c, l) == if n <= l < hi then 1 else 0 {
      Sum3([Label(n + 2)], c1, [Label(n + 1)] + (c2 + [Label(n)]), l);
      Sum3([Label(n + 1)], c2, [Label(n)], l);
      Intros1(Label(n + 2), l); Intros1(Label(n + 1), l); Intros1(Label(n), l);
    }
  }

  lemma OnceForStep(c0: seq<Instr>, c1: seq<Instr>, c2: seq<Instr>, c3: seq<Instr>, n: nat, h: nat, lc: nat, p: nat, hi: nat)
    requires Once(c0, n + 1, h) && Once(c1, h + 1, lc) && Once(c2, lc + 1, p) && Once(c3, p, hi)
    ensures Once(c0 + ([Label(h)] + (c1 + (c2 + ([Label(lc)] + (c3 + [Jmp(h), Label(n)]))))), n, hi)
  {
    hide Intros;
    var c := c0 + ([Label(h)] + (c1 + (c2 + ([Label(lc)] + (c3 + [Jmp(h), Label(n)])))));
    forall l: nat ensures Intros(c, l) == if n <= l < hi then 1 else 0 {
      Sum3(c0, [Label(h)], c1 + (c2 + ([Label(lc)] + (c3 + [Jmp(h), Label(n)]))), l);
      Sum3(c1, c2, [Label(lc)] + (c3 + [Jmp(h), Label(n)]), l);
      Sum3([Label(lc)], c3, [Jmp(h), Label(n)], l);
      Intros1(Label(h), l); Intros1(Label(lc), l); Intros2(Jmp(h), Label(n), l);
    }
  }

  lemma OnceEpilogue(locals: nat, value: bool, n: nat)
    ensures Once(Epilogue(locals, value), n, n)
  {
    forall l: nat ensures Intros(Epilogue(locals, value), l) == 0 {
      Intros2(LeasU, Puls(NoRegs), l);
    }
  }

  // ---------- all statements ----------

  lemma LabelsS(s: Stmt, env: Env, n: nat, k: bool)
    requires SoundS(s)
    ensures Once(GenS(s, env, n, k).code, n, GenS(s, env, n, k).next)
    decreases StmtSize(s), 1
  {
    hide Once; hide Intros; hide GenB; hide GenE; hide GenOpt; hide GenClauses; hide Sound; hide SoundCond; hide Epilogue;
    match s
    case Skip => OnceNone(n);
    case ExprS(e) => OnceE(e, n, k);
    case Seq(s1, s2) =>
      LabelsS(s1, env, n, k);
      var g1 := GenS(s1, env, n, k);
      LabelsS(s2, env, g1.next, g1.control);
      var g2 := GenS(s2, env, g1.next, g1.control);
      OnceJoin(g1.code, g2.code, n, g1.next, g2.next);
    case If(c, s1) =>
      OnceB(c, false, n, n + 1, k);
      var g1 := GenB(c, false, n, n + 1, k);
      LabelsS(s1, env, g1.next, g1.control);
      var g2 := GenS(s1, env, g1.next, g1.control);
      OnceIf(g1.code, g2.code, n, g1.next, g2.next);
    case IfElse(c, s1, s2) => LabelsIfElse(c, s1, s2, env, n, k);
    case While(c, s1) => LabelsWhile(c, s1, env, n, k);
    case WhileNull(c) =>
      OnceB(c, true, n + 1, n + 2, true);
      OnceNull(GenB(c, true, n + 1, n + 2, true).code, n, GenB(c, true, n + 1, n + 2, true).next);
    case DoWhile(s1, c) =>
      LabelsS(s1, env.(brk := n, cnt := n + 1), n + 3, true);
      var g1 := GenS(s1, env.(brk := n, cnt := n + 1), n + 3, true);
      OnceB(c, true, n + 2, g1.next, true);
      var g2 := GenB(c, true, n + 2, g1.next, true);
      OnceDo(g1.code, g2.code, n, g1.next, g2.next);
    case For(init, cond, step, s1) => LabelsFor(init, cond, step, s1, env, n, k);
    case Switch(e, cs) => LabelsSwitch(e, cs, env, n, k);
    case Break => OnceJump(env.brk, n);
    case Continue => OnceJump(env.cnt, n);
    case Return(r) =>
      OnceOpt(r, n, k);
      OnceEpilogue(env.locals, r.Some?, GenOpt(r, n, k).next);
      OnceJoin(GenOpt(r, n, k).code, Epilogue(env.locals, r.Some?), n, GenOpt(r, n, k).next, GenOpt(r, n, k).next);
  }

  lemma OnceJump(l: nat, n: nat)
    ensures Once([Jmp(l)], n, n)
  {
    forall x: nat ensures Intros([Jmp(l)], x) == 0 { Intros1(Jmp(l), x); }
  }

  lemma OnceNull(c1: seq<Instr>, n: nat, hi: nat)
    requires Once(c1, n + 2, hi)
    ensures Once([Label(n + 1)] + (c1 + [Label(n)]), n, hi)
  {
    hide Intros;
    var c := [Label(n + 1)] + (c1 + [Label(n)]);
    forall l: nat ensures Intros(c, l) == if n <= l < hi then 1 else 0 {
      Sum3([Label(n + 1)], c1, [Label(n)], l);
      Intros1(Label(n + 1), l); Intros1(Label(n), l);
    }
  }

  lemma LabelsIfElse(c: Expr, s1: Stmt, s2: Stmt, env: Env, n: nat, k: bool)
    requires SoundS(s1) && SoundS(s2)
    ensures var g := GenS(IfElse(c, s1, s2), env, n, k); Once(g.code, n, g.next)
    decreases StmtSize(s1) + StmtSize(s2) + 1, 0
  {
    hide Once; hide Intros; hide GenB; hide SoundS; hide ElseCode;
    OnceB(c, false, n, n + 1, k);
    var g1 := GenB(c, false, n, n + 1, k);
    LabelsS(s1, env, g1.next, g1.control);
    var g2 := GenS(s1, env, g1.next, g1.control);
    ElseShape(c, s1, s2, env, n, k);
    LabelsElse(s2, env, n, g1, g2);
  }

  /** The rest of an if-else after its condition g1 and first branch g2. */
  function ElseCode(s2: Stmt, env: Env, n: nat, g1: Gen, g2: Gen): Gen {
    if g2.control then
      var g3 := GenS(s2, env, g2.next + 1, true);
      Gen(g1.code + (g2.code + ([Jmp(g2.next), Label(n)] + (g3.code + [Label(g2.next)]))), g3.next, true)
    else
      var g3 := GenS(s2, env, g2.next, true);
      Gen(g1.code + (g2.code + ([Label(n)] + g3.code)), g3.next, g3.control)
  }

  lemma ElseShape(c: Expr, s1: Stmt, s2: Stmt, env: Env, n: nat, k: bool)
    ensures var g1 := GenB(c, false, n, n + 1, k);
            GenS(IfElse(c, s1, s2), env, n, k) == ElseCode(s2, env, n, g1, GenS(s1, env, g1.next, g1.control))
  {
    hide GenB;
  }

  lemma LabelsElse(s2: Stmt, env: Env, n: nat, g1: Gen, g2: Gen)
    requires SoundS(s2) && Once(g1.code, n + 1, g1.next) && Once(g2.code, g1.next, g2.next)
    ensures var g := ElseCode(s2, env, n, g1, g2); Once(g.code, n, g.next)
    decreases StmtSize(s2), 2
  {
    hide Once; hide Intros; hide GenS; hide SoundS;
    var from := if g2.control then g2.next + 1 else g2.next;
    LabelsS(s2, env, from, true);
    var g3 := GenS(s2, env, from, true);
    OnceElse(g1.code, g2.code, g3.code, n, g1.next, g2.next, g3.next);
  }

  lemma LabelsWhile(c: Expr, s1: Stmt, env: Env, n: nat, k: bool)
    requires SoundS(s1)
    ensures var g := GenS(While(c, s1), env, n, k); Once(g.code, n, g.next)
    decreases StmtSize(s1) + 1, 0
  {
    hide Intros; hide GenB; hide SoundS;
    OnceB(c, false, n, n + 2, true);
    var g1 := GenB(c, false, n, n + 2, true);
    LabelsS(s1, env.(brk := n, cnt := n + 1), g1.next, g1.control);
    var g2 := GenS(s1, env.(brk := n, cnt := n + 1), g1.next, g1.control);
    OnceWhile(g1.code, g2.code, n + 1, n, g1.next, g2.next, n + 2);
  }

  lemma LabelsFor(init: Opt, cond: Opt, step: Opt, s1: Stmt, env: Env, n: nat, k: bool)
    requires SoundS(s1)
    ensures var g := GenS(For(init, cond, step, s1), env, n, k); Once(g.code, n, g.next)
    decreases StmtSize(s1) + 1, 0
  {
    hide Intros; hide GenB; hide GenE; hide GenOpt; hide SoundS;
    OnceOpt(init, n + 1, k);
    var g0 := GenOpt(init, n + 1, k);
    var h := g0.next;
    var g1 := if cond.Some? then GenB(cond.e, false, n, h + 1, true) else Gen([], h + 1, true);
    if cond.Some? { OnceB(cond.e, false, n, h + 1, true); } else { OnceNone(h + 1); }
    if step.None? {
      LabelsS(s1, env.(brk := n, cnt := h), g1.next, g1.control);
      var g2 := GenS(s1, env.(brk := n, cnt := h), g1.next, g1.control);
      OnceWhile(g1.code, g2.code, h, n, g1.next, g2.next, h + 1);
      var rest := [Label(h)] + (g1.code + (g2.code + [Jmp(h), Label(n)]));
      forall l: nat ensures Intros(g0.code + rest, l) == if n <= l < g2.next then 1 else 0 { IntrosAppend(g0.code, rest, l); }
    } else {
      var lc := g1.next;
      LabelsS(s1, env.(brk := n, cnt := lc), lc + 1, g1.control);
      var g2 := GenS(s1, env.(brk := n, cnt := lc), lc + 1, g1.control);
      OnceE(step.e, g2.next, true);
      var g3 := GenE(step.e, g2.next, true);
      OnceForStep(g0.code, g1.code, g2.code, g3.code, n, h, lc, g2.next, g3.next);
    }
  }

  /** Clauses: the last failing label is still open; the other labels are introduced once. */
  ghost predicate OnceClauses(gc: GenC, csl: nat, lo: nat) {
    && lo <= gc.g.next
    && (gc.csl == csl || lo <= gc.csl < gc.g.next)
    && forall l: nat :: Intros(gc.g.code, l) + (if l == gc.csl && l != 0 then 1 else 0)
         == (if lo <= l < gc.g.next then 1 else 0) + (if l == csl && l != 0 then 1 else 0)
  }

  lemma LabelsClauses(cs: Clauses, env: Env, csl: nat, dl: nat, n: nat, k: bool)
    requires SoundClauses(cs) && n > 0 && csl < n
    ensures OnceClauses(GenClauses(cs, env, csl, dl, n, k), csl, n)
    decreases ClausesSize(cs), 0
  {
    hide Intros; hide GenS; hide SoundS; hide CaseCode; hide OnceClauses; hide Once;
    match cs
    case End => EndClauses(csl, dl, n, k);
    case Case(ks, body, next) =>
      LabelsS(body, env, n + 2, true);
      var g1 := GenS(body, env, n + 2, true);
      OnceOrder(g1, n + 2);
      LabelsClauses(next, env, n + 1, dl, g1.next, g1.control);
      JoinCase(ks, csl, n, k, g1, GenClauses(next, env, n + 1, dl, g1.next, g1.control));
    case Default(body, next) =>
      var csl' := if csl == 0 then n else csl;
      var d := if csl == 0 then n + 1 else n;
      LabelsS(body, env, d + 1, true);
      var g1 := GenS(body, env, d + 1, true);
      OnceOrder(g1, d + 1);
      LabelsClauses(next, env, csl', d, g1.next, g1.control);
      JoinDefault(csl, n, g1, GenClauses(next, env, csl', d, g1.next, g1.control));
  }

  lemma EndClauses(csl: nat, dl: nat, n: nat, k: bool)
    ensures OnceClauses(GenC(Gen([], n, k), csl, dl), csl, n)
  {}

  lemma JoinCase(ks: seq<int>, csl: nat, n: nat, k: bool, g1: Gen, gc: GenC)
    requires |ks| > 0 && 0 < n && csl < n && Once(g1.code, n + 2, g1.next) && OnceClauses(gc, n + 1, g1.next)
    ensures OnceClauses(gc.(g := Gen(CaseCode(ks, csl, n, k) + (g1.code + gc.g.code), gc.g.next, gc.g.control)), csl, n)
  {
    hide Intros; hide CaseCode;
    var head := CaseCode(ks, csl, n, k);
    var code := head + (g1.code + gc.g.code);
    forall l: nat ensures Intros(code, l) == (if l == n then 1 else 0) + (if l == csl && l != 0 then 1 else 0)
        + Intros(g1.code, l) + Intros(gc.g.code, l) {
      Sum3(head, g1.code, gc.g.code, l);
      OnceCase(ks, csl, n, k, l);
    }
  }

  lemma JoinDefault(csl: nat, n: nat, g1: Gen, gc: GenC)
    requires 0 < n && csl < n
    requires var d := if csl == 0 then n + 1 else n;
             Once(g1.code, d + 1, g1.next) && OnceClauses(gc, if csl == 0 then n else csl, g1.next)
    ensures var first := if csl == 0 then [Jmp(n)] else [];
            var d := if csl == 0 then n + 1 else n;
            OnceClauses(gc.(g := Gen(first + ([Label(d)] + (g1.code + gc.g.code)), gc.g.next, gc.g.control)), csl, n)
  {
    hide Intros;
    var first := if csl == 0 then [Jmp(n)] else [];
    var d := if csl == 0 then n + 1 else n;
    var code := first + ([Label(d)] + (g1.code + gc.g.code));
    forall l: nat ensures Intros(code, l) == (if l == d then 1 else 0) + Intros(g1.code, l) + Intros(gc.g.code, l) {
      Sum3(first, [Label(d)], g1.code + gc.g.code, l);
      IntrosAppend(g1.code, gc.g.code, l);
      Intros1(Label(d), l);
      Intros1(Jmp(n), l);
      IntrosNone(l);
    }
  }

  lemma OnceCase(ks: seq<int>, csl: nat, l: nat, k: bool, x: nat)
    requires |ks| > 0 && l > 0
    ensures Intros(CaseCode(ks, csl, l, k), x) == (if x == l then 1 else 0) + (if x == csl && x != 0 then 1 else 0)
  {
    hide Intros; hide CaseTests;
    var c1 := if k then [CaseJump(l, 2 + 6 * |ks|)] else [];
    var c2 := if csl != 0 then [Label(csl)] else [];
    var t := CaseTests(ks, l, l + 1, 2 + 6 * |ks|);
    Sum3(c1, c2, t + [Label(l)], x);
    IntrosAppend(t, [Label(l)], x);
    Intros1(Label(l), x);
    Intros1(Label(csl), x);
    Intros1(CaseJump(l, 2 + 6 * |ks|), x);
    IntrosNone(x);
    TestsNone(ks, l, l + 1, 2 + 6 * |ks|, x);
  }

  lemma IntrosNone(x: nat)
    ensures Intros([], x) == 0
  {}

  lemma {:induction false} TestsNone(ks: seq<int>, l: nat, fail: nat, n: int, x: nat)
    requires |ks| > 0
    ensures Intros(CaseTests(ks, l, fail, n), x) == 0
    decreases |ks|
  {
    hide Intros;
    if |ks| == 1 {
      Intros2(Cmpd(Imm(ks[0])), Branch(NE, fail), x);
    } else {
      var last := |ks| - 1;
      var i := if n - 6 > 127 then Branch(EQ, l) else ShortEq(l);
      TestsNone(ks[..last], l, fail, n - 6, x);
      IntrosAppend([Cmpd(Imm(ks[last])), i], CaseTests(ks[..last], l, fail, n - 6), x);
      Intros2(Cmpd(Imm(ks[last])), i, x);
    }
  }

  lemma LabelsSwitch(e: Expr, cs: Clauses, env: Env, n: nat, k: bool)
    requires SoundClauses(cs) && !cs.End?
    ensures var g := GenS(Switch(e, cs), env, n, k); Once(g.code, n, g.next)
    decreases ClausesSize(cs) + 1, 0
  {
    hide Intros; hide GenE; hide GenClauses; hide SoundClauses;
    OnceE(e, n + 1, k);
    var g1 := GenE(e, n + 1, k);
    LabelsClauses(cs, env.(brk := n), 0, 0, g1.next, false);
    var gc := GenClauses(cs, env.(brk := n), 0, 0, g1.next, false);
    OpenLabel(cs, env.(brk := n), 0, 0, g1.next, false);
    var last := if gc.dl != 0 then Equ(gc.csl, gc.dl) else Label(gc.csl);
    var code := g1.code + (gc.g.code + [last, Label(n)]);
    forall l: nat ensures Intros(code, l) == if n <= l < gc.g.next then 1 else 0 {
      Sum3(g1.code, gc.g.code, [last, Label(n)], l);
      Intros2(last, Label(n), l);
    }
  }

  /** After at least one clause there is a failing label. */
  lemma OpenLabel(cs: Clauses, env: Env, csl: nat, dl: nat, n: nat, k: bool)
    requires SoundClauses(cs) && n > 0 && (csl != 0 || !cs.End?)
    ensures GenClauses(cs, env, csl, dl, n, k).csl != 0
    decreases ClausesSize(cs), 1
  {
    hide GenS; hide CaseCode; hide Once;
    match cs
    case End =>
    case Case(ks, body, next) =>
      LabelsS(body, env, n + 2, true);
      OnceOrder(GenS(body, env, n + 2, true), n + 2);
      OpenLabel(next, env, n + 1, dl, GenS(body, env, n + 2, true).next, GenS(body, env, n + 2, true).control);
    case Default(body, next) =>
      var d := if csl == 0 then n + 1 else n;
      LabelsS(body, env, d + 1, true);
      OnceOrder(GenS(body, env, d + 1, true), d + 1);
      OpenLabel(next, env, if csl == 0 then n else csl, d, GenS(body, env, d + 1, true).next, GenS(body, env, d + 1, true).control);
  }

  lemma OnceOrder(g: Gen, n: nat)
    requires Once(g.code, n, g.next)
    ensures n <= g.next
  {}

  // ---------- whole pieces of program ----------

  /** Code whose labels are introduced at most once each. */
  lemma OnceUnique(code: seq<Instr>, lo: nat, hi: nat)
    requires Once(code, lo, hi)
    ensures Unique(code)
  {
    forall i, j, l: nat | 0 <= i < |code| && 0 <= j < |code| && Marks(code[i], l) && Marks(code[j], l) && i < j ensures false {
      TwoMarks(code, i, j, l);
    }
  }

  lemma {:induction false} TwoMarks(code: seq<Instr>, i: nat, j: nat, l: nat)
    requires i < j < |code| && Marks(code[i], l) && Marks(code[j], l)
    ensures Intros(code, l) >= 2
  {
    if i == 0 { OneMark(code[1..], j - 1, l); } else { TwoMarks(code[1..], i - 1, j - 1, l); }
  }

  lemma {:induction false} OneMark(code: seq<Instr>, j: nat, l: nat)
    requires j < |code| && Marks(code[j], l)
    ensures Intros(code, l) >= 1
  {
    if j != 0 { OneMark(code[1..], j - 1, l); }
  }
}
