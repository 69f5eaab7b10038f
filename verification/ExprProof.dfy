/** Code generated for expressions computes their values. */
module ExprProof {
  import opened Machine
  import opened Runtime
  import opened Engine
  import opened Source
  import opened CodeGen

  // ---------- what is compared ----------

  ghost predicate Agree(cx: Ctx, mem: Memory, m: Memory) {
    forall a :: 0 <= a < 0x1_0000 && Free(cx, a) ==> mem[a] == m[a]
  }

  ghost predicate Kept(cx: Ctx, s: Word, mem: Memory, mem': Memory) {
    forall a :: s <= a < cx.hi && a < 0x1_0000 ==> mem'[a] == mem[a]
  }

  ghost predicate Ready(cx: Ctx, st: Cpu, m: Memory, need: int) {
    && st.y == cx.y && st.u == cx.u
    && 0 <= cx.lo && cx.lo + need <= st.s <= cx.hi <= 0x1_0000
    && Agree(cx, st.mem, m)
  }

  /** S, U and Y are back, source memory is m', and live stack bytes are untouched. */
  ghost predicate After(cx: Ctx, st: Cpu, st': Cpu, m': Memory) {
    && st'.y == st.y && st'.u == st.u && st'.s == st.s
    && Agree(cx, st'.mem, m')
    && Kept(cx, st.s, st.mem, st'.mem)
  }

  /** Nothing but D and the flags differs. */
  ghost predicate OnlyD(st: Cpu, st': Cpu) {
    st'.x == st.x && st'.y == st.y && st'.u == st.u && st'.s == st.s && st'.mem == st.mem
  }

  ghost predicate Computes(cx: Ctx, code: seq<Instr>, st: Cpu, r: Result) {
    r.Val? ==>
      && Exec(code, st).Fall?
      && Exec(code, st).st.d == r.v
      && After(cx, st, Exec(code, st).st, r.m)
  }

  ghost predicate Points(cx: Ctx, code: seq<Instr>, st: Cpu, r: Result) {
    r.Val? ==>
      && Exec(code, st).Fall?
      && Exec(code, st).st.x == r.v
      && After(cx, st, Exec(code, st).st, r.m)
  }

  ghost predicate Decides(cx: Ctx, code: seq<Instr>, st: Cpu, cond: bool, l: nat, r: Result) {
    r.Val? ==>
      var o := Exec(code, st);
      && (if (r.v != 0) == cond then o.Goto? && o.l == l else o.Fall?)
      && After(cx, st, o.st, r.m)
  }

  // ---------- straight-line code ----------

  lemma Exec0(st: Cpu)
    ensures Exec([], st) == Fall(st)
  {}

  lemma Exec1(i: Instr, st: Cpu)
    requires Straight(i)
    ensures Exec([i], st) == Fall(Do(i, st))
  {
    hide Do;
    assert [i][1..] == [];
  }

  lemma ExecCons(i: Instr, rest: seq<Instr>, st: Cpu)
    requires Straight(i)
    ensures Exec([i] + rest, st) == Exec(rest, Do(i, st))
  {
    hide Do;
    assert ([i] + rest)[1..] == rest;
  }

  lemma Exec2(i: Instr, j: Instr, st: Cpu)
    requires Straight(i) && Straight(j)
    ensures Exec([i, j], st) == Fall(Do(j, Do(i, st)))
  {
    hide Do;
    assert [i, j][1..] == [j];
    Exec1(j, Do(i, st));
  }

  lemma Exec3(i: Instr, j: Instr, k: Instr, st: Cpu)
    requires Straight(i) && Straight(j) && Straight(k)
    ensures Exec([i, j, k], st) == Fall(Do(k, Do(j, Do(i, st))))
  {
    hide Do;
    assert [i, j, k][1..] == [j, k];
    Exec2(j, k, Do(i, st));
  }

  lemma Exec4(i: Instr, j: Instr, k: Instr, l: Instr, st: Cpu)
    requires Straight(i) && Straight(j) && Straight(k) && Straight(l)
    ensures Exec([i, j, k, l], st) == Fall(Do(l, Do(k, Do(j, Do(i, st)))))
  {
    hide Do;
    assert [i, j, k, l][1..] == [j, k, l];
    Exec3(j, k, l, Do(i, st));
  }

  lemma Compose(c1: seq<Instr>, c2: seq<Instr>, st: Cpu)
    requires Exec(c1, st).Fall?
    ensures Exec(c1 + c2, st) == Exec(c2, Exec(c1, st).st)
  {
    hide Exec;
    ExecAppend(c1, c2, st);
  }

  // ---------- memory ----------

  lemma AgreeRead(cx: Ctx, mem: Memory, m: Memory, a: Word)
    requires Agree(cx, mem, m) && FreeFor(cx, a, false)
    ensures ReadWord(mem, a) == ReadWord(m, a)
  {}

  lemma AgreeWrite(cx: Ctx, mem: Memory, m: Memory, a: Word, w: Word, s: Word)
    requires Agree(cx, mem, m) && FreeFor(cx, a, false) && cx.lo <= s
    ensures Agree(cx, WriteWord(mem, a, w), WriteWord(m, a, w))
    ensures Kept(cx, s, mem, WriteWord(mem, a, w))
  {}

  lemma AgreeWriteByte(cx: Ctx, mem: Memory, m: Memory, a: Word, b: Byte, s: Word)
    requires Agree(cx, mem, m) && Free(cx, a) && cx.lo <= s
    ensures Agree(cx, mem[a := b], m[a := b])
    ensures Kept(cx, s, mem, mem[a := b])
  {}

  lemma KeptRefl(cx: Ctx, st: Cpu)
    ensures Kept(cx, st.s, st.mem, st.mem)
  {}

  lemma KeptTrans(cx: Ctx, st: Cpu, st1: Cpu, st2: Cpu, m1: Memory, m2: Memory)
    requires After(cx, st, st1, m1) && After(cx, st1, st2, m2)
    ensures After(cx, st, st2, m2)
  {}

  lemma ReadBack(m: Memory, a: Word, w: Word)
    ensures ReadWord(WriteWord(m, a, w), a) == w
  {}

  /** A pushed word stays on top while code that starts below it runs. */
  lemma PushReady(cx: Ctx, st: Cpu, m: Memory, need: int, w: Word)
    requires Ready(cx, st, m, need) && need >= 2
    ensures Push(st, w).s == st.s - 2
    ensures Ready(cx, Push(st, w), m, need - 2)
    ensures Top(Push(st, w)) == w
    ensures Kept(cx, st.s, st.mem, Push(st, w).mem)
  {
    ReadBack(st.mem, st.s - 2, w);
  }

  lemma TopKept(cx: Ctx, st: Cpu, m: Memory, need: int, w: Word, st': Cpu, m': Memory)
    requires Ready(cx, st, m, need) && need >= 2
    requires After(cx, Push(st, w), st', m')
    ensures st'.s == st.s - 2 && Top(st') == w && Wrap(st'.s + 2) == st.s
    ensures After(cx, st, Pop(st'), m')
  {
    PushReady(cx, st, m, need, w);
    assert st'.mem[st.s - 2] == Push(st, w).mem[st.s - 2];
    assert st'.mem[st.s - 1] == Push(st, w).mem[st.s - 1];
  }
}
