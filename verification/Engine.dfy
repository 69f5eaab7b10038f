/**
  Execution of instruction sequences.  `Do` is one instruction without a jump; `Exec`
  runs a piece of code from its first instruction until it falls off the end or jumps to
  a label that the rest of the piece does not define.
 */
module Engine {
  import opened Machine
  import opened Runtime

  predicate Straight(i: Instr) {
    !(i.Branch? || i.ShortEq? || i.Jmp? || i.ShortJmp? || i.SkipBytes? || i.Label? || i.Equ? || i.Puls?)
  }

  function Do(i: Instr, st: Cpu): Cpu
  {
    match i
    case Ldd(m) => var (w, st') := Operand16(m, st); LoadD(st', w)
    case Ldb(m) => var (b, st') := Operand8(m, st); LoadB(st', b)
    case Ldx(m) => var (w, st') := Operand16(m, st); LoadX(st', w)
    case Std(m) => var (a, st') := Place(m, st); StoreWord(st', a, st.d)
    case Stb(m) => var (a, st') := Place(m, st); StoreByte(st', a, st.B())
    case Stx(m) => var (a, st') := Place(m, st); StoreWord(st', a, st'.x)
    case Leax(m) => var (a, st') := Place(m, st); st'.(x := a, cc := st.cc.(z := a == 0))
    case Leas(m) => var (a, st') := Place(m, st); st'.(s := a)
    case Addd(m) => var (w, st') := Operand16(m, st); AddTo(st', w)
    case Subd(m) => var (w, st') := Operand16(m, st); SubFrom(st', w)
    case Cmpd(m) => var (w, st') := Operand16(m, st); Compare(st', w)
    case BitA(op, m) =>
      var (b, st') := Operand8(m, st);
      var r := Bitwise8(op, st.A(), b);
      st'.WithA(r).(cc := NZ8(st.cc, r).(v := false))
    case BitB(op, m) =>
      var (b, st') := Operand8(m, st);
      var r := Bitwise8(op, st.B(), b);
      st'.WithB(r).(cc := NZ8(st.cc, r).(v := false))
    case Inc(m) =>
      var (a, st') := Place(m, st);
      var r := Wrap8(st'.mem[a] as int + 1);
      st'.(mem := st'.mem[a := r], cc := NZ8(st.cc, r).(v := r == 0x80))
    case Dec(m) =>
      var (a, st') := Place(m, st);
      var r := Wrap8(st'.mem[a] as int - 1);
      st'.(mem := st'.mem[a := r], cc := NZ8(st.cc, r).(v := r == 0x7f))
    case Sex => st.(d := Sext(st.B()), cc := NZ16(st.cc, Sext(st.B())))
    case Nega =>
      var r := Wrap8(-(st.A() as int));
      st.WithA(r).(cc := Status8(0, st.A(), r, st.A() != 0))
    case Negb =>
      var r := Wrap8(-(st.B() as int));
      st.WithB(r).(cc := Status8(0, st.B(), r, st.B() != 0))
    case Sbca(n) =>
      var b := Wrap8(n);
      var wide := st.A() - b - (if st.cc.c then 1 else 0);
      var r := Wrap8(wide);
      st.WithA(r).(cc := Status8(st.A(), b, r, wide < 0))
    case Coma => st.WithA(0xff - st.A()).(cc := NZ8(st.cc, 0xff - st.A()).(c := true, v := false))
    case Comb => st.WithB(0xff - st.B()).(cc := NZ8(st.cc, 0xff - st.B()).(c := true, v := false))
    case Clra => st.WithA(0).(cc := Flags(false, true, false, false))
    case Clrb => st.WithB(0).(cc := Flags(false, true, false, false))
    case Aslb =>
      var r := Wrap8(2 * st.B());
      st.WithB(r).(cc := Status8(st.B(), st.B(), r, st.B() >= 0x80))
    case Rola =>
      var r := Wrap8(2 * st.A() + if st.cc.c then 1 else 0);
      st.WithA(r).(cc := Flags(r >= 0x80, r == 0, (st.A() >= 0x80) != (Wrap8(2 * st.A()) >= 0x80), st.A() >= 0x80))
    case PshsD => Push(st, st.d)
    case PulsD => Pop(st).(d := Top(st))
    case PulsX => Pop(st).(x := Top(st))
    case TfrDX => st.(x := st.d)
    case TfrXD => st.(d := st.x)
    case PshsU => Push(st, st.u)
    case LeauS => st.(u := st.s)
    case LeasU => st.(s := st.u)
    case Lbsr(lib) => Library(lib, st)
    case _ => st
  }

  predicate Taken(i: Instr, f: Flags) {
    i.Jmp? || i.ShortJmp? || (i.Branch? && Holds(i.cc, f)) || (i.ShortEq? && f.z)
  }

  /** The instructions whose distance matters to a short jump; all have one fixed size. */
  predicate Sized(i: Instr) {
    i.Label? || i.Equ? || (i.Ldd? && i.m.Imm?) || (i.Cmpd? && i.m.Imm?)
    || i.Branch? || i.Jmp? || i.ShortEq? || i.ShortJmp? || i.SkipBytes?
  }

  function Bytes(i: Instr): nat
    requires Sized(i)
  {
    if i.Label? || i.Equ? then 0
    else if i.Ldd? || i.Jmp? then 3
    else if i.Cmpd? || i.Branch? then 4
    else 2
  }

  // ---------- labels inside a piece of code ----------

  /** Position of the first definition of l, or |code| when there is none. */
  function Find(code: seq<Instr>, l: nat): (k: nat)
    ensures k <= |code|
    ensures k < |code| ==> code[k] == Label(l)
    ensures forall i :: 0 <= i < k ==> code[i] != Label(l)
  {
    if code == [] || code[0] == Label(l) then 0 else 1 + Find(code[1..], l)
  }

  // ---------- running a piece of code ----------

  datatype Outcome = Fall(st: Cpu) | Goto(l: nat, st: Cpu) | Stuck

  function Exec(code: seq<Instr>, st: Cpu): Outcome
    decreases |code|, 0
  {
    if code == [] then Fall(st) else
    var i, rest := code[0], code[1..];
    if Straight(i) then Exec(rest, Do(i, st))
    else if i.Puls? then Stuck
    else if i.SkipBytes? then
      var k := SkipOver(rest, i.k);
      if k <= |rest| then Exec(rest[k..], st) else Stuck
    else if Taken(i, st.cc) then JumpTo(rest, i.l, st)
    else Exec(rest, st)
  }

  function JumpTo(rest: seq<Instr>, l: nat, st: Cpu): Outcome
    decreases |rest|, 1
  {
    var k := Find(rest, l);
    if k < |rest| then Exec(rest[k..], st) else Goto(l, st)
  }

  /** How many instructions make up exactly n bytes; more than |code| when none do. */
  function SkipOver(code: seq<Instr>, n: nat): nat {
    if n == 0 then 0
    else if code == [] || !Sized(code[0]) || Bytes(code[0]) > n then |code| + 1
    else 1 + SkipOver(code[1..], n - Bytes(code[0]))
  }

  /** Continue an outcome with the code that follows. */
  function Then(o: Outcome, next: seq<Instr>): Outcome {
    match o
    case Fall(st) => Exec(next, st)
    case Goto(l, st) => JumpTo(next, l, st)
    case Stuck => Stuck
  }

  lemma {:induction false} FindAppend(c1: seq<Instr>, c2: seq<Instr>, l: nat)
    ensures Find(c1 + c2, l) == if Find(c1, l) < |c1| then Find(c1, l) else |c1| + Find(c2, l)
  {
    if c1 == [] {
      assert c1 + c2 == c2;
    } else {
      assert (c1 + c2)[1..] == c1[1..] + c2;
      FindAppend(c1[1..], c2, l);
    }
  }

  lemma {:induction false} SkipAppend(c1: seq<Instr>, c2: seq<Instr>, n: nat)
    requires SkipOver(c1, n) <= |c1|
    ensures SkipOver(c1 + c2, n) == SkipOver(c1, n)
  {
    if n != 0 {
      assert (c1 + c2)[1..] == c1[1..] + c2;
      SkipAppend(c1[1..], c2, n - Bytes(c1[0]));
    }
  }

  /** Running two pieces in a row is running the first and then continuing with the second. */
  lemma {:induction false} ExecAppend(c1: seq<Instr>, c2: seq<Instr>, st: Cpu)
    requires !Exec(c1, st).Stuck?
    ensures Exec(c1 + c2, st) == Then(Exec(c1, st), c2)
    decreases |c1|, 0
  {
    hide Do;
    if c1 == [] {
      assert c1 + c2 == c2;
    } else {
      var rest := c1[1..];
      assert (c1 + c2)[1..] == rest + c2;
      var i := c1[0];
      if Straight(i) {
        ExecAppend(rest, c2, Do(i, st));
      } else if i.SkipBytes? {
        var k := SkipOver(rest, i.k);
        SkipAppend(rest, c2, i.k);
        assert (rest + c2)[k..] == rest[k..] + c2;
        ExecAppend(rest[k..], c2, st);
      } else if Taken(i, st.cc) {
        JumpAppend(rest, c2, i.l, st);
      } else {
        ExecAppend(rest, c2, st);
      }
    }
  }

  lemma {:induction false} JumpAppend(rest: seq<Instr>, c2: seq<Instr>, l: nat, st: Cpu)
    requires !JumpTo(rest, l, st).Stuck?
    ensures JumpTo(rest + c2, l, st) == Then(JumpTo(rest, l, st), c2)
    decreases |rest|, 1
  {
    hide Do;
    FindAppend(rest, c2, l);
    var k := Find(rest, l);
    if k < |rest| {
      assert (rest + c2)[k..] == rest[k..] + c2;
      ExecAppend(rest[k..], c2, st);
    } else {
      var j := Find(c2, l);
      if j < |c2| {
        assert (rest + c2)[|rest| + j..] == c2[j..];
      }
    }
  }
}
