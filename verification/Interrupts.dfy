/**
  Interrupt entry and return in the emulator's processor.  Writes at and above `ram` have no
  effect; stacks lie below it.
 */
module Interrupts {
  import opened Machine
  import opened CodeBits

  datatype Regs = Regs(a: Byte, b: Byte, dp: Byte, cc: Byte, x: Word, y: Word, u: Word, s: Word, pc: Word, mem: Memory)

  datatype Kind = Irq | Firq | Swi | Swi2 | Swi3

  // ---------- stack ----------

  function SetByte(m: Memory, a: Word, b: Byte, ram: nat): Memory { if a < ram then m[a := b] else m }

  function PushByte(r: Regs, b: Byte, ram: nat): Regs {
    var s := Wrap(r.s - 1);
    r.(s := s, mem := SetByte(r.mem, s, b, ram))
  }

  /** The high byte is stored first, at the lower address. */
  function PushWord(r: Regs, w: Word, ram: nat): Regs {
    var s := Wrap(r.s - 2);
    r.(s := s, mem := SetByte(SetByte(r.mem, s, w / 0x100, ram), Wrap(s + 1), w % 0x100, ram))
  }

  // ---------- flags: E is bit 7 ----------

  predicate E(cc: Byte) { cc >= 0x80 }

  function WithE(cc: Byte): Byte { if E(cc) then cc else cc + 0x80 }

  function WithoutE(cc: Byte): Byte { cc % 0x80 }

  /** The condition codes that an entry saves. */
  function Saved(k: Kind, cc: Byte): Byte { if k.Firq? then WithoutE(cc) else WithE(cc) }

  /** And those the handler starts with: IRQ masks itself, FIRQ and SWI mask both. */
  function Masked(k: Kind, cc: Byte): Byte {
    match k
    case Irq => Bitwise8(OrBits, Saved(k, cc), 0x90)
    case Firq => Bitwise8(OrBits, Saved(k, cc), 0x50)
    case Swi => Bitwise8(OrBits, Saved(k, cc), 0x50)
    case Swi2 => Saved(k, cc)
    case Swi3 => Saved(k, cc)
  }

  function Vector(k: Kind): Word {
    match k
    case Irq => 0xfff8
    case Firq => 0xfff6
    case Swi => 0xfffa
    case Swi2 => 0xfff4
    case Swi3 => 0xfff2
  }

  /** PC, U, Y, X, DP, B, A and CC; or PC and CC. */
  function PushAll(k: Kind, r: Regs, ram: nat): Regs {
    var r1 := PushWord(r, r.pc, ram);
    if k.Firq? then PushByte(r1, Saved(k, r.cc), ram)
    else
      var r2 := PushWord(PushWord(PushWord(r1, r.u, ram), r.y, ram), r.x, ram);
      PushByte(PushByte(PushByte(PushByte(r2, r.dp, ram), r.b, ram), r.a, ram), Saved(k, r.cc), ram)
  }

  function Enter(k: Kind, r: Regs, ram: nat): Regs {
    var p := PushAll(k, r, ram);
    p.(cc := Masked(k, r.cc), pc := ReadWord(p.mem, Vector(k)))
  }

  /** A, B and DP. */
  function PullBytes(r: Regs): Regs {
    var r1 := r.(a := r.mem[r.s], s := Wrap(r.s + 1));
    var r2 := r1.(b := r.mem[r1.s], s := Wrap(r1.s + 1));
    r2.(dp := r.mem[r2.s], s := Wrap(r2.s + 1))
  }

  /** X, Y and U. */
  function PullWords(r: Regs): Regs {
    var r1 := r.(x := ReadWord(r.mem, r.s), s := Wrap(r.s + 2));
    var r2 := r1.(y := ReadWord(r.mem, r1.s), s := Wrap(r1.s + 2));
    r2.(u := ReadWord(r.mem, r2.s), s := Wrap(r2.s + 2))
  }

  function PullAll(r: Regs): Regs { PullWords(PullBytes(r)) }

  function Rti(r: Regs): Regs {
    var cc := r.mem[r.s];
    var r1 := r.(cc := cc, s := Wrap(r.s + 1));
    var r2 := if E(cc) then PullAll(r1) else r1;
    r2.(pc := ReadWord(r.mem, r2.s), s := Wrap(r2.s + 2))
  }

  /** Bytes that an entry pushes. */
  function Frame(k: Kind): nat { if k.Firq? then 3 else 12 }

  // ---------- one entry and its return ----------

  ghost predicate SameAbove(m: Memory, m': Memory, s: int) { forall a :: 0 <= a < 0x1_0000 && s <= a ==> m'[a] == m[a] }

  lemma PushByteIs(r: Regs, b: Byte, ram: nat)
    requires 1 <= r.s <= ram
    ensures var p := PushByte(r, b, ram);
            p == r.(s := r.s - 1, mem := p.mem) && p.mem[r.s - 1] == b && SameAbove(r.mem, p.mem, r.s)
  {}

  lemma PushWordIs(r: Regs, w: Word, ram: nat)
    requires 2 <= r.s <= ram
    ensures var p := PushWord(r, w, ram);
            p == r.(s := r.s - 2, mem := p.mem) && ReadWord(p.mem, r.s - 2) == w && SameAbove(r.mem, p.mem, r.s)
  {}

  lemma WordKept(m: Memory, m': Memory, s: int, a: Word)
    requires SameAbove(m, m', s) && s <= a <= 0xfffe
    ensures ReadWord(m', a) == ReadWord(m, a)
  {}

  /** Where everything is after an entry. */
  ghost predicate Framed(k: Kind, r: Regs, p: Regs) {
    && p.s == r.s - Frame(k) && SameAbove(r.mem, p.mem, r.s)
    && p.a == r.a && p.b == r.b && p.dp == r.dp && p.x == r.x && p.y == r.y && p.u == r.u
    && 0 <= p.s && p.mem[p.s] == Saved(k, r.cc) && ReadWord(p.mem, r.s - 2) == r.pc
    && (!k.Firq? ==>
          && p.mem[p.s + 1] == r.a && p.mem[p.s + 2] == r.b && p.mem[p.s + 3] == r.dp
          && ReadWord(p.mem, p.s + 4) == r.x && ReadWord(p.mem, p.s + 6) == r.y && ReadWord(p.mem, p.s + 8) == r.u)
  }

  lemma PushedWords(r: Regs, ram: nat)
    requires 12 <= r.s <= ram
    ensures var p := PushWord(PushWord(PushWord(PushWord(r, r.pc, ram), r.u, ram), r.y, ram), r.x, ram);
            && p == r.(s := r.s - 8, mem := p.mem) && SameAbove(r.mem, p.mem, r.s)
            && ReadWord(p.mem, r.s - 2) == r.pc && ReadWord(p.mem, r.s - 4) == r.u
            && ReadWord(p.mem, r.s - 6) == r.y && ReadWord(p.mem, r.s - 8) == r.x
  {
    hide PushWord; hide ReadWord;
    var r1 := PushWord(r, r.pc, ram);
    var r2 := PushWord(r1, r.u, ram);
    var r3 := PushWord(r2, r.y, ram);
    var r4 := PushWord(r3, r.x, ram);
    PushWordIs(r, r.pc, ram);
    PushWordIs(r1, r.u, ram);
    PushWordIs(r2, r.y, ram);
    PushWordIs(r3, r.x, ram);
    WordKept(r1.mem, r4.mem, r.s - 2, r.s - 2);
    WordKept(r2.mem, r4.mem, r.s - 4, r.s - 4);
    WordKept(r3.mem, r4.mem, r.s - 6, r.s - 6);
  }

  lemma PushedAll(k: Kind, r: Regs, ram: nat)
    requires 12 <= r.s <= ram
    ensures Framed(k, r, PushAll(k, r, ram))
  {
    if k.Firq? {
      PushedFast(k, r, ram);
    } else {
      PushedSlow(k, r, ram);
    }
  }

  lemma PushedFast(k: Kind, r: Regs, ram: nat)
    requires 12 <= r.s <= ram && k.Firq?
    ensures Framed(k, r, PushAll(k, r, ram))
  {
    hide PushWord; hide PushByte; hide ReadWord; hide Saved;
    PushWordIs(r, r.pc, ram);
    var r1 := PushWord(r, r.pc, ram);
    PushByteIs(r1, Saved(k, r.cc), ram);
    WordKept(r1.mem, PushByte(r1, Saved(k, r.cc), ram).mem, r.s - 2, r.s - 2);
  }

  lemma PushedSlow(k: Kind, r: Regs, ram: nat)
    requires 12 <= r.s <= ram && !k.Firq?
    ensures Framed(k, r, PushAll(k, r, ram))
  {
    hide PushWord; hide PushByte; hide ReadWord; hide Saved;
    PushedWords(r, ram);
    var r0 := PushWord(PushWord(PushWord(PushWord(r, r.pc, ram), r.u, ram), r.y, ram), r.x, ram);
    var r1 := PushByte(r0, r.dp, ram);
    var r2 := PushByte(r1, r.b, ram);
    var r3 := PushByte(r2, r.a, ram);
    var r4 := PushByte(r3, Saved(k, r.cc), ram);
    PushByteIs(r0, r.dp, ram);
    PushByteIs(r1, r.b, ram);
    PushByteIs(r2, r.a, ram);
    PushByteIs(r3, Saved(k, r.cc), ram);
    WordKept(r0.mem, r4.mem, r0.s, r.s - 2);
    WordKept(r0.mem, r4.mem, r0.s, r.s - 4);
    WordKept(r0.mem, r4.mem, r0.s, r.s - 6);
    WordKept(r0.mem, r4.mem, r0.s, r.s - 8);
  }

  // ---------- an entry in bytes and bits ----------

  /** A word at a, high byte first. */
  predicate WordAt(m: Memory, a: int, w: Word) { 0 <= a <= 0xfffe && m[a] == w / 0x100 && m[a + 1] == w % 0x100 }

  /** The flags with bit 7 set or cleared, bits 6 and 4 set as well if so said, the others as they were. */
  predicate FlagsAre(cc: Byte, cc': Byte, seven: bool, six: bool, four: bool) {
    forall j :: 0 <= j < 8 ==>
      (BitAt(cc', j) == 1 <==> if j == 7 then seven else BitAt(cc, j) == 1 || (j == 6 && six) || (j == 4 && four))
  }

  /** PC, U, Y, X, DP, B, A and CC from the stack's old top down, or PC and CC; then the mask bits
      and the vector. */
  ghost predicate Entered(k: Kind, r: Regs, e: Regs) {
    && e.s == r.s - (if k.Firq? then 3 else 12) && e.s >= 0
    && (forall a :: 0 <= a < 0x1_0000 && r.s <= a ==> e.mem[a] == r.mem[a])
    && WordAt(e.mem, r.s - 2, r.pc)
    && (k.Firq? ==> FlagsAre(r.cc, e.mem[r.s - 3], false, false, false))
    && (!k.Firq? ==>
          && WordAt(e.mem, r.s - 4, r.u) && WordAt(e.mem, r.s - 6, r.y) && WordAt(e.mem, r.s - 8, r.x)
          && e.mem[r.s - 9] == r.dp && e.mem[r.s - 10] == r.b && e.mem[r.s - 11] == r.a
          && FlagsAre(r.cc, e.mem[r.s - 12], true, false, false))
    && e.a == r.a && e.b == r.b && e.dp == r.dp && e.x == r.x && e.y == r.y && e.u == r.u
    && (k.Irq? ==> FlagsAre(r.cc, e.cc, true, false, true) && WordAt(e.mem, 0xfff8, e.pc))
    && (k.Firq? ==> FlagsAre(r.cc, e.cc, false, true, true) && WordAt(e.mem, 0xfff6, e.pc))
    && (k.Swi? ==> FlagsAre(r.cc, e.cc, true, true, true) && WordAt(e.mem, 0xfffa, e.pc))
    && (k.Swi2? ==> FlagsAre(r.cc, e.cc, true, false, false) && WordAt(e.mem, 0xfff4, e.pc))
    && (k.Swi3? ==> FlagsAre(r.cc, e.cc, true, false, false) && WordAt(e.mem, 0xfff2, e.pc))
  }

  lemma EntryMeans(k: Kind, r: Regs, ram: nat)
    requires 12 <= r.s <= ram <= 0x1_0000
    ensures Entered(k, r, Enter(k, r, ram))
  {
    hide PushAll; hide Masked; hide ReadWord; hide Saved; hide FlagsAre; hide WordAt;
    PushedAll(k, r, ram);
    var p := PushAll(k, r, ram);
    SavedBits(k, r.cc);
    MaskedBits(k, r.cc);
    WordBytes(p.mem, Vector(k));
    WordBytes(p.mem, r.s - 2);
    if !k.Firq? {
      WordBytes(p.mem, r.s - 4);
      WordBytes(p.mem, r.s - 6);
      WordBytes(p.mem, r.s - 8);
    }
  }

  /** Wherever the stack lies, an entry leaves what is not RAM as it is. */
  lemma RomKept(k: Kind, r: Regs, ram: nat)
    ensures SameAbove(r.mem, Enter(k, r, ram).mem, ram)
  {
    hide ReadWord; hide Saved; hide Masked; hide PushWord; hide PushByte;
    forall q: Regs, w: Word ensures SameAbove(q.mem, PushWord(q, w, ram).mem, ram) { WordInRam(q, w, ram); }
    forall q: Regs, b: Byte ensures SameAbove(q.mem, PushByte(q, b, ram).mem, ram) { ByteInRam(q, b, ram); }
  }

  lemma WordInRam(r: Regs, w: Word, ram: nat)
    ensures SameAbove(r.mem, PushWord(r, w, ram).mem, ram)
  {}

  lemma ByteInRam(r: Regs, b: Byte, ram: nat)
    ensures SameAbove(r.mem, PushByte(r, b, ram).mem, ram)
  {}

  lemma WordBytes(m: Memory, a: Word)
    requires a <= 0xfffe
    ensures WordAt(m, a, ReadWord(m, a))
  {}

  lemma SavedBits(k: Kind, cc: Byte)
    ensures FlagsAre(cc, Saved(k, cc), !k.Firq?, false, false)
  {
    hide BitAt; hide Bitwise;
    TopBitSet(cc);
    forall j | 0 <= j < 8 ensures BitAt(Saved(k, cc), j) == 1 <==> if j == 7 then !k.Firq? else BitAt(cc, j) == 1 {
      BitOf(OrBits, cc, 0x80, 8, j);
      BitOf(AndBits, cc, 0x7f, 8, j);
      BitIsBit(cc, j);
      MaskBits(7, j);
    }
  }

  lemma MaskedBits(k: Kind, cc: Byte)
    ensures FlagsAre(cc, Masked(k, cc), !k.Firq?, k.Firq? || k.Swi?, k.Irq? || k.Firq? || k.Swi?)
  {
    hide BitAt; hide Bitwise; hide Saved;
    SavedBits(k, cc);
    forall j | 0 <= j < 8
      ensures BitAt(Masked(k, cc), j) == 1 <==>
              if j == 7 then !k.Firq? else BitAt(cc, j) == 1 || (j == 6 && (k.Firq? || k.Swi?)) || (j == 4 && (k.Irq? || k.Firq? || k.Swi?))
    {
      BitOf(OrBits, Saved(k, cc), 0x90, 8, j);
      BitOf(OrBits, Saved(k, cc), 0x50, 8, j);
      BitIsBit(Saved(k, cc), j);
      MasksAre(j);
    }
  }

  lemma MasksAre(j: nat)
    requires j < 8
    ensures BitAt(0x90, j) == (if j == 7 || j == 4 then 1 else 0) && BitAt(0x50, j) == (if j == 6 || j == 4 then 1 else 0)
  {
    hide BitAt;
    Low(0x90);
    Low(0x50);
  }

  /** What the interrupted program finds after the return: its stack pointer, program counter,
      flags (E but for itself) and memory above the stack; and its registers, which FIRQ leaves
      to the handler. */
  ghost predicate Resumed(k: Kind, r: Regs, handled: Regs, back: Regs) {
    && back.s == r.s && back.pc == r.pc && back.cc % 0x80 == r.cc % 0x80 && SameAbove(r.mem, back.mem, r.s)
    && (if k.Firq? then back.a == handled.a && back.b == handled.b && back.dp == handled.dp
                        && back.x == handled.x && back.y == handled.y && back.u == handled.u
        else back.a == r.a && back.b == r.b && back.dp == r.dp && back.x == r.x && back.y == r.y && back.u == r.u)
  }

  /** A handler that ends with its entry's S and has kept memory from there on gives way to
      the interrupted program with RTI. */
  lemma EnterReturn(k: Kind, r: Regs, ram: nat, h: Regs)
    requires 12 <= r.s <= ram <= 0x1_0000
    requires var e := Enter(k, r, ram); h.s == e.s && SameAbove(e.mem, h.mem, e.s)
    ensures Resumed(k, r, h, Rti(h))
  {
    hide PushAll; hide ReadWord; hide Masked;
    PushedAll(k, r, ram);
    var p := PushAll(k, r, ram);
    ReturnFrame(k, r, p, h);
  }

  lemma ReturnFrame(k: Kind, r: Regs, p: Regs, h: Regs)
    requires Framed(k, r, p) && h.s == p.s && SameAbove(p.mem, h.mem, p.s) && 12 <= r.s
    ensures Resumed(k, r, h, Rti(h))
  {
    hide ReadWord; hide Rti; hide Saved;
    SavedFlags(k, r.cc);
    WordKept(p.mem, h.mem, p.s, r.s - 2);
    if k.Firq? {
      RtiFast(h);
    } else {
      RtiSlow(h);
      WordKept(p.mem, h.mem, p.s, p.s + 4);
      WordKept(p.mem, h.mem, p.s, p.s + 6);
      WordKept(p.mem, h.mem, p.s, p.s + 8);
    }
  }

  lemma RtiFast(h: Regs)
    requires h.s <= 0xfffc && !E(h.mem[h.s])
    ensures Rti(h) == h.(cc := h.mem[h.s], pc := ReadWord(h.mem, h.s + 1), s := Wrap(h.s + 3))
  {
    hide ReadWord;
  }

  lemma RtiSlow(h: Regs)
    requires h.s <= 0xfff3 && E(h.mem[h.s])
    ensures var b := Rti(h);
            && b.cc == h.mem[h.s] && b.a == h.mem[h.s + 1] && b.b == h.mem[h.s + 2] && b.dp == h.mem[h.s + 3] && b.mem == h.mem
            && b.x == ReadWord(h.mem, h.s + 4) && b.y == ReadWord(h.mem, h.s + 6) && b.u == ReadWord(h.mem, h.s + 8)
            && b.pc == ReadWord(h.mem, h.s + 10) && b.s == Wrap(h.s + 12)
  {
    hide ReadWord; hide PullBytes; hide PullWords;
    var r := h.(cc := h.mem[h.s], s := h.s + 1);
    PullBytesAt(r);
    PullWordsAt(PullBytes(r));
  }

  lemma PullBytesAt(r: Regs)
    requires r.s <= 0xfffc
    ensures PullBytes(r) == r.(a := r.mem[r.s], b := r.mem[r.s + 1], dp := r.mem[r.s + 2], s := r.s + 3)
  {}

  lemma PullWordsAt(r: Regs)
    requires r.s <= 0xfff9
    ensures PullWords(r) == r.(x := ReadWord(r.mem, r.s), y := ReadWord(r.mem, r.s + 2), u := ReadWord(r.mem, r.s + 4), s := r.s + 6)
  {
    hide ReadWord;
  }

  lemma SavedFlags(k: Kind, cc: Byte)
    ensures Saved(k, cc) % 0x80 == cc % 0x80 && (E(Saved(k, cc)) <==> !k.Firq?)
  {}

  /** The registers that FIRQ does not save reach its handler unchanged. */
  lemma FastEntry(r: Regs, ram: nat)
    requires 12 <= r.s <= ram <= 0x1_0000
    ensures var e := Enter(Firq, r, ram);
            e.a == r.a && e.b == r.b && e.dp == r.dp && e.x == r.x && e.y == r.y && e.u == r.u && e.s == r.s - 3
  {
    hide PushAll; hide Masked; hide ReadWord;
    PushedAll(Firq, r, ram);
  }

  // ---------- nested runs ----------

  /** What happens in a handler: work that leads to another state, and interrupts with what
      happens in them. */
  datatype Run = End | Work(after: Regs, next: Run) | Interrupt(k: Kind, body: Run, next: Run)

  function Execute(run: Run, r: Regs, ram: nat): Regs {
    match run
    case End => r
    case Work(after, next) => Execute(next, after, ram)
    case Interrupt(k, body, next) => Execute(next, Rti(Execute(body, Enter(k, r, ram), ram)), ram)
  }

  /** Work keeps memory from `top` on, interrupts find a stack at or below it and in RAM, and
      S is back at `top` at the end; the same in every handler for its own entry S. */
  ghost predicate Balanced(run: Run, r: Regs, top: Word, ram: nat) {
    match run
    case End => r.s == top
    case Work(after, next) => SameAbove(r.mem, after.mem, top) && Balanced(next, after, top, ram)
    case Interrupt(k, body, next) =>
      && 12 <= r.s <= top && r.s <= ram
      && Balanced(body, Enter(k, r, ram), Enter(k, r, ram).s, ram)
      && Balanced(next, Rti(Execute(body, Enter(k, r, ram), ram)), top, ram)
  }

  lemma {:induction false} RunKeeps(run: Run, r: Regs, top: Word, ram: nat)
    requires Balanced(run, r, top, ram) && ram <= 0x1_0000
    ensures Execute(run, r, ram).s == top && SameAbove(r.mem, Execute(run, r, ram).mem, top)
    decreases run
  {
    hide Enter; hide Rti;
    match run
    case End =>
    case Work(after, next) => RunKeeps(next, after, top, ram);
    case Interrupt(k, body, next) =>
      var e := Enter(k, r, ram);
      RunKeeps(body, e, e.s, ram);
      var h := Execute(body, e, ram);
      EnterReturn(k, r, ram, h);
      RunKeeps(next, Rti(h), top, ram);
  }

  /** However interrupts nest in a handler, its return resumes the interrupted program. */
  lemma NestedReturn(k: Kind, body: Run, r: Regs, ram: nat)
    requires 12 <= r.s <= ram <= 0x1_0000 && Balanced(body, Enter(k, r, ram), Enter(k, r, ram).s, ram)
    ensures var h := Execute(body, Enter(k, r, ram), ram); Resumed(k, r, h, Rti(h))
  {
    hide Enter; hide Rti; hide Balanced; hide Execute;
    RunKeeps(body, Enter(k, r, ram), Enter(k, r, ram).s, ram);
    EnterReturn(k, r, ram, Execute(body, Enter(k, r, ram), ram));
  }

  // ---------- the processor ----------

  class Processor {
    var iareg: Byte
    var ibreg: Byte
    var idpreg: Byte
    var iccreg: Byte
    var ixreg: Word
    var iyreg: Word
    var iureg: Word
    var isreg: Word
    var ipcreg: Word
    var mem: array<Byte>
    const ram: nat

    constructor (ram: nat)
      ensures mem.Length == 0x1_0000 && fresh(mem) && this.ram == ram
    {
      iareg, ibreg, idpreg, iccreg, ixreg, iyreg, iureg, isreg, ipcreg := 0, 0, 0, 0, 0, 0, 0, 0, 0;
      mem := new Byte[0x1_0000](_ => 0);
      this.ram := ram;
    }

    ghost function Now(): Regs
      requires mem.Length == 0x1_0000
      reads this, mem
    {
      Regs(iareg, ibreg, idpreg, iccreg, ixreg, iyreg, iureg, isreg, ipcreg, mem[..])
    }

    method StoreByte(a: Word, b: Byte)
      requires mem.Length == 0x1_0000
      modifies mem
      ensures mem[..] == SetByte(old(mem[..]), a, b, ram)
    {
      if a < ram { mem[a] := b; }
    }

    method Push8(b: Byte)
      requires mem.Length == 0x1_0000
      modifies this`isreg, mem
      ensures Now() == PushByte(old(Now()), b, ram)
    {
      hide SetByte;
      isreg := Wrap(isreg as int - 1);
      StoreByte(isreg, b);
    }

    method Push16(w: Word)
      requires mem.Length == 0x1_0000
      modifies this`isreg, mem
      ensures Now() == PushWord(old(Now()), w, ram)
    {
      hide SetByte;
      isreg := Wrap(isreg as int - 2);
      StoreByte(isreg, w / 0x100);
      StoreByte(Wrap(isreg as int + 1), w % 0x100);
    }

    method Pull8() returns (b: Byte)
      requires mem.Length == 0x1_0000
      modifies this`isreg
      ensures b == mem[old(isreg)] && isreg == Wrap(old(isreg) as int + 1)
    {
      b := mem[isreg];
      isreg := Wrap(isreg as int + 1);
    }

    method Pull16() returns (w: Word)
      requires mem.Length == 0x1_0000
      modifies this`isreg
      ensures w == ReadWord(mem[..], old(isreg)) && isreg == Wrap(old(isreg) as int + 2)
    {
      w := Join(mem[isreg], mem[Wrap(isreg as int + 1)]);
      isreg := Wrap(isreg as int + 2);
    }

    /** Entry to IRQ, FIRQ or one of the SWIs. */
    method Accept(k: Kind)
      requires mem.Length == 0x1_0000
      modifies this, mem
      ensures mem == old(mem) && Now() == Enter(k, old(Now()), ram)
    {
      hide PushWord; hide PushByte; hide ReadWord; hide Vector; hide Bitwise8;
      TopBitSet(iccreg);
      Push16(ipcreg);
      ghost var r;
      if k.Firq? {
        r := Now();
        iccreg := Bitwise8(AndBits, iccreg, 0x7f);
      } else {
        Push16(iureg);
        Push16(iyreg);
        Push16(ixreg);
        Push8(idpreg);
        Push8(ibreg);
        Push8(iareg);
        r := Now();
        iccreg := Bitwise8(OrBits, iccreg, 0x80);
      }
      PushesAnyFlags(r, iccreg, ram);
      Push8(iccreg);
      if k.Irq? { iccreg := Bitwise8(OrBits, iccreg, 0x90); }
      else if k.Firq? || k.Swi? { iccreg := Bitwise8(OrBits, iccreg, 0x50); }
      VectorPlace(k);
      ipcreg := Join(mem[Vector(k)], mem[Vector(k) as int + 1]);
      ReadVector(mem[..], Vector(k));
    }

    method PullAccumulators()
      requires mem.Length == 0x1_0000
      modifies this`iareg, this`ibreg, this`idpreg, this`isreg
      ensures Now() == PullBytes(old(Now()))
    {
      hide Wrap;
      iareg := Pull8();
      ibreg := Pull8();
      idpreg := Pull8();
    }

    method PullIndexes()
      requires mem.Length == 0x1_0000
      modifies this`ixreg, this`iyreg, this`iureg, this`isreg
      ensures Now() == PullWords(old(Now()))
    {
      hide ReadWord; hide Wrap;
      ixreg := Pull16();
      iyreg := Pull16();
      iureg := Pull16();
    }

    method PullRegisters()
      requires mem.Length == 0x1_0000
      modifies this`iareg, this`ibreg, this`idpreg, this`ixreg, this`iyreg, this`iureg, this`isreg
      ensures Now() == PullAll(old(Now()))
    {
      hide PullBytes; hide PullWords;
      PullAccumulators();
      PullIndexes();
    }

    method ReturnFromInterrupt()
      requires mem.Length == 0x1_0000
      modifies this
      ensures mem == old(mem) && Now() == Rti(old(Now()))
    {
      hide ReadWord; hide Wrap; hide PullAll; hide Bitwise8;
      PullKeeps(Now().(cc := mem[isreg], s := Wrap(isreg as int + 1)));
      iccreg := Pull8();
      TopMask(iccreg);
      if Bitwise8(AndBits, iccreg, 0x80) != 0 { PullRegisters(); }
      ipcreg := Pull16();
    }
  }

  lemma PullKeeps(r: Regs)
    ensures PullAll(r).mem == r.mem && PullAll(r).cc == r.cc && PullAll(r).pc == r.pc
  {
    hide ReadWord; hide Wrap;
  }

  lemma PushesAnyFlags(r: Regs, cc: Byte, ram: nat)
    ensures PushByte(r.(cc := cc), cc, ram) == PushByte(r, cc, ram).(cc := cc)
  {}

  lemma VectorPlace(k: Kind)
    ensures Vector(k) <= 0xfffe
  {}

  lemma ReadVector(m: Memory, a: Word)
    requires a <= 0xfffe
    ensures ReadWord(m, a) == Join(m[a], m[a + 1])
  {}
}
