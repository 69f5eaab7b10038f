/**
  The part of the 6809 that the C compiler's output uses, with the semantics that
  the emulator's interpreter gives to it.  Registers and memory cells are integers in
  range; every place where the emulator wraps or truncates is written out with `%`.
 */
module Machine {

  type Byte = b: int | 0 <= b < 0x100
  type Word = w: int | 0 <= w < 0x1_0000
  type Memory = m: seq<Byte> | |m| == 0x1_0000 witness seq(0x1_0000, _ => 0)

  // ---------- words, bytes and memory ----------

  function Wrap(n: int): Word { n % 0x1_0000 }

  function Wrap8(n: int): Byte { n % 0x100 }

  /** The case of a zero high byte keeps the verifier from multiplying out constants that it
      has already multiplied out. */
  function Join(hi: Byte, lo: Byte): Word { if hi == 0 then lo else 0x100 * hi + lo }

  lemma JoinParts(hi: Byte, lo: Byte)
    ensures Join(hi, lo) / 0x100 == hi && Join(hi, lo) % 0x100 == lo
  {}

  function Sext(b: Byte): Word { if b < 0x80 then b else 0xff00 + b }

  function Signed(w: Word): int { if w < 0x8000 then w else w - 0x1_0000 }

  /** Words are big-endian and the second byte's address wraps at $ffff. */
  function ReadWord(m: Memory, a: Word): Word { Join(m[a], m[Wrap(a + 1)]) }

  function WriteWord(m: Memory, a: Word, w: Word): Memory {
    m[a := w / 0x100][Wrap(a + 1) := w % 0x100]
  }

  // ---------- bitwise operations ----------

  datatype BitOp = AndBits | OrBits | EorBits

  function Bit(op: BitOp, p: int, q: int): (r: int)
    ensures 0 <= r <= 1
  {
    match op
    case AndBits => if p == 1 && q == 1 then 1 else 0
    case OrBits => if p == 1 || q == 1 then 1 else 0
    case EorBits => if p == q then 0 else 1
  }

  function Pow2(k: nat): (r: int)
    ensures r >= 1
  {
    if k == 0 then 1 else 2 * Pow2(k - 1)
  }

  /** The bitwise operation on the k low bits of a and b. */
  function Bitwise(op: BitOp, a: nat, b: nat, k: nat): (r: nat)
    ensures r < Pow2(k)
  {
    if k == 0 then 0 else Bit(op, a % 2, b % 2) + 2 * Bitwise(op, a / 2, b / 2, k - 1)
  }

  function Bitwise8(op: BitOp, a: Byte, b: Byte): Byte {
    Pow8();
    Bitwise(op, a, b, 8)
  }

  function Bitwise16(op: BitOp, a: Word, b: Word): Word {
    Pow8();
    Bitwise(op, a, b, 16)
  }

  lemma Pow8()
    ensures Pow2(8) == 0x100 && Pow2(16) == 0x1_0000
  {
    assert Pow2(4) == 16;
    assert Pow2(8) == 0x100;
    assert Pow2(12) == 0x1000;
  }

  // ---------- registers ----------

  datatype Flags = Flags(n: bool, z: bool, v: bool, c: bool)

  /** The programmer's model.  D is A:B; the direct-page register, the half-carry and
      the interrupt bits are not used by compiled code. */
  datatype Cpu = Cpu(d: Word, x: Word, y: Word, u: Word, s: Word, cc: Flags, mem: Memory) {
    function A(): Byte { d / 0x100 }
    function B(): Byte { d % 0x100 }
    function WithA(v: Byte): Cpu { this.(d := Join(v, B())) }
    function WithB(v: Byte): Cpu { this.(d := Join(A(), v)) }
  }

  predicate Xor(p: bool, q: bool) { p != q }

  function NZ8(f: Flags, r: Byte): Flags { f.(n := r >= 0x80, z := r == 0) }

  function NZ16(f: Flags, r: Word): Flags { f.(n := r >= 0x8000, z := r == 0) }

  /** SETSTATUS: `carry` is bit 8 of the wide result whose low byte is r. */
  function Status8(a: Byte, b: Byte, r: Byte, carry: bool): Flags {
    Flags(r >= 0x80, r == 0, Xor(Xor(a >= 0x80, b >= 0x80), Xor(r >= 0x80, carry)), carry)
  }

  /** SETSTATUSD: `carry` is bit 16 of the wide result whose low word is r. */
  function Status16(a: Word, b: Word, r: Word, carry: bool): Flags {
    Flags(r >= 0x8000, r == 0, Xor(Xor(a >= 0x8000, b >= 0x8000), Xor(r >= 0x8000, carry)), carry)
  }

  // ---------- instructions ----------

  /** Operands: an immediate, an offset from a register, `D,X`, auto-increment and
      auto-decrement of X, auto-increment of S, and the indirect forms `[n,Y]`, `[n,U]`. */
  datatype Mode =
    | Imm(n: int)
    | OffY(n: int) | OffU(n: int) | OffX(n: int) | OffS(n: int)
    | DX
    | XInc(k: int) | XDec(k: int) | SInc(k: int)
    | IndY(n: int) | IndU(n: int)

  datatype Cond = EQ | NE | GT | LE | GE | LT | HI | LS | HS | LO

  /** The runtime routines _00001 .. _00009. */
  datatype LibOp = LMul | LDiv | LUDiv | LMod | LUMod | LShl | LUShl | LShr | LUShr

  /** What a return pops before U and PC. */
  datatype Popped = NoRegs | PopA | PopD | PopX | PopAX | PopDX

  datatype Instr =
    | Label(l: nat)
    | Equ(l: nat, target: nat)
    | Ldd(m: Mode) | Ldb(m: Mode) | Ldx(m: Mode)
    | Std(m: Mode) | Stb(m: Mode) | Stx(m: Mode)
    | Leax(m: Mode) | Leas(m: Mode)
    | Addd(m: Mode) | Subd(m: Mode) | Cmpd(m: Mode)
    | BitA(op: BitOp, m: Mode) | BitB(op: BitOp, m: Mode)
    | Inc(m: Mode) | Dec(m: Mode)
    | Sex | Nega | Negb | Sbca(n: int) | Coma | Comb | Clra | Clrb | Aslb | Rola
    | PshsD | PulsD | PulsX | TfrDX | TfrXD
    | PshsU | LeauS | LeasU      // function entry and exit
    | Puls(regs: Popped)         // PULS ..,U,PC
    | Lbsr(lib: LibOp)
    | Branch(cc: Cond, l: nat)   // LBcc
    | ShortEq(l: nat)            // the 2-byte BEQ of a case list
    | Jmp(l: nat)                // LBRA
    | ShortJmp(l: nat)           // the 2-byte BRA of a case list
    | SkipBytes(k: nat)          // BRA *+2+k

  /** Effective address, and the state after the register update of an auto mode. */
  function Ea(m: Mode, st: Cpu): (Word, Cpu)
    requires !m.Imm?
  {
    match m
    case OffY(n) => (Wrap(st.y + n), st)
    case OffU(n) => (Wrap(st.u + n), st)
    case OffX(n) => (Wrap(st.x + n), st)
    case OffS(n) => (Wrap(st.s + n), st)
    case DX => (Wrap(st.x + st.d), st)
    case XInc(k) => (st.x, st.(x := Wrap(st.x + k)))
    case XDec(k) => (Wrap(st.x - k), st.(x := Wrap(st.x - k)))
    case SInc(k) => (st.s, st.(s := Wrap(st.s + k)))
    case IndY(n) => (ReadWord(st.mem, Wrap(st.y + n)), st)
    case IndU(n) => (ReadWord(st.mem, Wrap(st.u + n)), st)
  }

  function Operand16(m: Mode, st: Cpu): (Word, Cpu) {
    if m.Imm? then (Wrap(m.n), st)
    else var (a, st') := Ea(m, st); (ReadWord(st'.mem, a), st')
  }

  function Operand8(m: Mode, st: Cpu): (Byte, Cpu) {
    if m.Imm? then (Wrap8(m.n), st)
    else var (a, st') := Ea(m, st); (st'.mem[a], st')
  }

  /** The place a store or read-modify-write goes to; immediates are not writable. */
  function Place(m: Mode, st: Cpu): (Word, Cpu) {
    if m.Imm? then (0, st) else Ea(m, st)
  }

  function LoadD(st: Cpu, w: Word): Cpu {
    st.(d := w, cc := NZ16(st.cc, w).(v := false))
  }

  function LoadX(st: Cpu, w: Word): Cpu {
    st.(x := w, cc := NZ16(st.cc, w).(v := false))
  }

  function LoadB(st: Cpu, b: Byte): Cpu {
    st.WithB(b).(cc := NZ8(st.cc, b).(v := false))
  }

  function StoreWord(st: Cpu, a: Word, w: Word): Cpu {
    st.(mem := WriteWord(st.mem, a, w), cc := NZ16(st.cc, w).(v := false))
  }

  function StoreByte(st: Cpu, a: Word, b: Byte): Cpu {
    st.(mem := st.mem[a := b], cc := NZ8(st.cc, b).(v := false))
  }

  function AddTo(st: Cpu, w: Word): Cpu {
    st.(d := Wrap(st.d + w), cc := Status16(st.d, w, Wrap(st.d + w), st.d + w >= 0x1_0000))
  }

  /** Flags of a 16-bit subtraction or comparison. */
  function SubStatus(a: Word, b: Word): Flags { Status16(a, b, Wrap(a - b), a < b) }

  function Compare(st: Cpu, w: Word): Cpu { st.(cc := SubStatus(st.d, w)) }

  function SubFrom(st: Cpu, w: Word): Cpu {
    Compare(st, w).(d := Wrap(st.d - w))
  }

  function Push(st: Cpu, w: Word): Cpu {
    st.(s := Wrap(st.s - 2), mem := WriteWord(st.mem, Wrap(st.s - 2), w))
  }

  function Top(st: Cpu): Word { ReadWord(st.mem, st.s) }

  function Pop(st: Cpu): Cpu { st.(s := Wrap(st.s + 2)) }

  predicate Holds(c: Cond, f: Flags) {
    match c
    case EQ => f.z
    case NE => !f.z
    case GT => !(f.n != f.v || f.z)
    case LE => f.n != f.v || f.z
    case GE => f.n == f.v
    case LT => f.n != f.v
    case HI => !(f.c || f.z)
    case LS => f.c || f.z
    case HS => !f.c
    case LO => f.c
  }
}
