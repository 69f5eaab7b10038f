/**
  The emulator's processor as it runs: A and B apart, the condition codes as the bits of one
  byte, status macros that find carry and overflow in the exclusive or of operands and a wide
  result, and a memory array.  Every instruction does what Engine.Do says of the state before
  it, and every branch is taken when Holds says so.
 */
module Emulator {
  import opened Machine
  import opened Runtime
  import opened Engine
  import opened CodeBits

  // ---------- the status macros ----------

  function Exor(a: nat, b: nat, n: nat): nat { Bitwise(EorBits, a, b, n) }

  /** `(a ^ b ^ res ^ (res >> 1)) & 2^k`, on words of n bits. */
  function OverflowMask(a: nat, b: nat, res: nat, n: nat, k: nat): nat {
    Bitwise(AndBits, Exor(Exor(Exor(a, b, n), res, n), res / 2, n), Pow2(k), n)
  }

  /** It is set when bits k of operands and result and the result's next bit sum up to an odd
      number. */
  lemma OverflowBits(a: nat, b: nat, res: nat, n: nat, k: nat)
    requires k < n
    ensures OverflowMask(a, b, res, n, k) != 0 <==>
            Xor(Xor(BitAt(a, k) == 1, BitAt(b, k) == 1), Xor(BitAt(res, k) == 1, BitAt(res, k + 1) == 1))
  {
    hide Bitwise; hide BitAt;
    var x := Exor(a, b, n);
    var y := Exor(x, res, n);
    BitOf(EorBits, a, b, n, k);
    BitOf(EorBits, x, res, n, k);
    BitOf(EorBits, y, res / 2, n, k);
    MaskIs(Exor(y, res / 2, n), n, k);
    NextBit(res, k);
    BitIsBit(a, k); BitIsBit(b, k); BitIsBit(res, k); BitIsBit(res, k + 1);
  }

  lemma NextBit(x: nat, k: nat)
    ensures BitAt(x, k + 1) == BitAt(x / 2, k)
  {}

  lemma Powers()
    ensures Pow2(7) == 0x80 && Pow2(8) == 0x100 && Pow2(15) == 0x8000 && Pow2(16) == 0x1_0000
  {
    Pow8();
  }

  /** SETSTATUS: V as Status8 has it, with bit 8 of the result as carry. */
  lemma Overflow8(a: Byte, b: Byte, res: Word)
    ensures OverflowMask(a, b, res, 16, 7) != 0 <==> Status8(a, b, res % 0x100, BitAt(res, 8) == 1).v
  {
    hide OverflowMask; hide BitAt; hide Pow2;
    Powers();
    OverflowBits(a, b, res, 16, 7);
    BitIs(a, 7); BitIs(b, 7); BitIs(res, 7);
  }

  /** SETSTATUSD: the same with words. */
  lemma Overflow16(a: Word, b: Word, res: nat)
    ensures OverflowMask(a, b, res, 32, 15) != 0 <==> Status16(a, b, res % 0x1_0000, BitAt(res, 16) == 1).v
  {
    hide OverflowMask; hide BitAt; hide Pow2;
    Powers();
    OverflowBits(a, b, res, 32, 15);
    BitIs(a, 15); BitIs(b, 15); BitIs(res, 15);
  }

  /** Bit 8 of a 16-bit result tells whether the exact one left the byte. */
  lemma Carry8(wide: int)
    requires -0x100 <= wide < 0x200
    ensures BitAt(Wrap(wide), 8) == 1 <==> wide < 0 || wide >= 0x100
    ensures Wrap(wide) % 0x100 == Wrap8(wide)
  {
    hide BitAt; hide Pow2;
    Powers();
    BitIs(Wrap(wide), 8);
  }

  function Wrap32(n: int): nat { n % 0x1_0000_0000 }

  lemma Carry16(wide: int)
    requires -0x1_0000 <= wide < 0x2_0000
    ensures BitAt(Wrap32(wide), 16) == 1 <==> wide < 0 || wide >= 0x1_0000
    ensures Wrap32(wide) % 0x1_0000 == Wrap(wide)
  {
    hide BitAt; hide Pow2;
    Powers();
    BitIs(Wrap32(wide), 16);
  }

  lemma Sign16(w: Word)
    ensures Bitwise16(AndBits, w, 0x8000) != 0 <==> w >= 0x8000
  {
    hide BitAt; hide Pow2; hide Bitwise;
    Powers();
    MaskIs(w, 16, 15);
    BitIs(w, 15);
  }

  // ---------- the flags in signed and unsigned arithmetic ----------

  function Signed8(b: Byte): int { if b < 0x80 then b else b - 0x100 }

  /** N and Z are those of the byte r, V says that the signed result is not it, C as given. */
  predicate FlagsOf8(f: Flags, r: Byte, signed: int, carry: bool) {
    (f.n <==> Signed8(r) < 0) && (f.z <==> r == 0) && (f.v <==> !(-0x80 <= signed < 0x80)) && f.c == carry
  }

  predicate FlagsOf16(f: Flags, r: Word, signed: int, carry: bool) {
    (f.n <==> Signed(r) < 0) && (f.z <==> r == 0) && (f.v <==> !(-0x8000 <= signed < 0x8000)) && f.c == carry
  }

  /** INC and DEC keep C. */
  lemma CountFlags(i: Instr, st: Cpu)
    requires i.Inc? || i.Dec?
    ensures var (a, st') := Place(i.m, st);
            var b, d, r := st'.mem[a], if i.Inc? then 1 else -1, Do(i, st);
            r.mem == st'.mem[a := (b as int + d) % 0x100] && FlagsOf8(r.cc, r.mem[a], Signed8(b) + d, st.cc.c)
  {}

  /** ADDD, SUBD and CMPD: C is the carry or borrow of the words. */
  lemma SumFlags(i: Instr, st: Cpu)
    requires i.Addd? || i.Subd? || i.Cmpd?
    ensures var (w, st') := Operand16(i.m, st);
            var r := Do(i, st);
            if i.Addd? then r.d == (st.d + w) % 0x1_0000 && FlagsOf16(r.cc, r.d, Signed(st.d) + Signed(w), st.d + w > 0xffff)
            else FlagsOf16(r.cc, (st.d - w) % 0x1_0000, Signed(st.d) - Signed(w), st.d < w)
                 && r.d == if i.Subd? then (st.d - w) % 0x1_0000 else st.d
  {
    hide Operand16; hide Status16;
    ModeKeepsD(i.m, st);
    StatusSum(st.d, Operand16(i.m, st).0);
  }

  lemma StatusSum(a: Word, b: Word)
    ensures FlagsOf16(Status16(a, b, Wrap(a + b), a + b >= 0x1_0000), Wrap(a + b), Signed(a) + Signed(b), a + b > 0xffff)
    ensures FlagsOf16(Status16(a, b, Wrap(a - b), a < b), Wrap(a - b), Signed(a) - Signed(b), a < b)
  {}

  lemma ModeKeepsD(m: Mode, st: Cpu)
    ensures Operand16(m, st).1.d == st.d && Operand16(m, st).1.cc == st.cc
  {
    hide ReadWord;
  }

  /** NEGA, NEGB and SBCA with its borrow. */
  lemma NegateFlags(i: Instr, st: Cpu)
    requires i.Nega? || i.Negb? || i.Sbca?
    ensures var r := Do(i, st);
            && (i.Nega? ==> r.A() == (0x100 - st.A()) % 0x100 && r.B() == st.B() && FlagsOf8(r.cc, r.A(), -Signed8(st.A()), st.A() != 0))
            && (i.Negb? ==> r.B() == (0x100 - st.B()) % 0x100 && r.A() == st.A() && FlagsOf8(r.cc, r.B(), -Signed8(st.B()), st.B() != 0))
            && (i.Sbca? ==>
                  var b, c := i.n % 0x100, if st.cc.c then 1 else 0;
                  r.A() == (st.A() - b - c) % 0x100 && r.B() == st.B() && FlagsOf8(r.cc, r.A(), Signed8(st.A()) - Signed8(b) - c, st.A() < b + c))
  {
    hide Status8; hide Join;
    if i.Nega? { JoinParts(Wrap8(-(st.A() as int)), st.B()); StatusNegated(st.A()); }
    else if i.Negb? { JoinParts(st.A(), Wrap8(-(st.B() as int))); StatusNegated(st.B()); }
    else {
      var b, c := Wrap8(i.n), if st.cc.c then 1 else 0;
      JoinParts(Wrap8(st.A() - b - c), st.B());
      StatusBorrowed(st.A(), b, c);
    }
  }

  lemma StatusNegated(a: Byte)
    ensures FlagsOf8(Status8(0, a, Wrap8(-(a as int)), a != 0), Wrap8(-(a as int)), -Signed8(a), a != 0)
  {}

  lemma StatusBorrowed(a: Byte, b: Byte, c: int)
    requires 0 <= c <= 1
    ensures var r := Wrap8(a - b - c); FlagsOf8(Status8(a, b, r, a - b - c < 0), r, Signed8(a) - Signed8(b) - c, a < b + c)
  {}

  /** Loads, stores and logic: N and Z are the value's, V is cleared, and C stays. */
  lemma MoveFlags(i: Instr, st: Cpu)
    requires i.Ldd? || i.Ldb? || i.Ldx? || i.Std? || i.Stb? || i.Stx? || i.BitA? || i.BitB?
    ensures var r := Do(i, st);
            && (i.Ldd? ==> r.d == Operand16(i.m, st).0 && FlagsOf16(r.cc, r.d, 0, st.cc.c))
            && (i.Ldx? ==> r.x == Operand16(i.m, st).0 && FlagsOf16(r.cc, r.x, 0, st.cc.c))
            && (i.Ldb? ==> r.B() == Operand8(i.m, st).0 && FlagsOf8(r.cc, r.B(), 0, st.cc.c))
            && (i.Std? ==> FlagsOf16(r.cc, st.d, 0, st.cc.c)) && (i.Stb? ==> FlagsOf8(r.cc, st.B(), 0, st.cc.c))
            && (i.Stx? ==> FlagsOf16(r.cc, Place(i.m, st).1.x, 0, st.cc.c))
            && (i.BitA? ==> FlagsOf8(r.cc, r.A(), 0, st.cc.c)) && (i.BitB? ==> FlagsOf8(r.cc, r.B(), 0, st.cc.c))
  {
    hide ReadWord; hide WriteWord; hide Bitwise8; hide Ea; hide Join; hide Operand16; hide Operand8; hide Place;
    if i.Ldd? || i.Ldx? { ModeKeepsD(i.m, st); }
    else if i.Ldb? { ByteMode(i.m, st); JoinParts(st.A(), Operand8(i.m, st).0); }
    else if i.BitA? { ByteMode(i.m, st); JoinParts(Bitwise8(i.op, st.A(), Operand8(i.m, st).0), st.B()); }
    else if i.BitB? { ByteMode(i.m, st); JoinParts(st.A(), Bitwise8(i.op, st.B(), Operand8(i.m, st).0)); }
    else { PlaceKeeps(i.m, st); }
  }

  /** COM sets C, CLR clears it, both with V cleared; SEX keeps both. */
  lemma ClearFlags(i: Instr, st: Cpu)
    requires i.Coma? || i.Comb? || i.Clra? || i.Clrb? || i.Sex?
    ensures var r := Do(i, st);
            && (i.Coma? ==> r.A() == 0xff - st.A() && r.B() == st.B() && FlagsOf8(r.cc, r.A(), 0, true))
            && (i.Comb? ==> r.B() == 0xff - st.B() && r.A() == st.A() && FlagsOf8(r.cc, r.B(), 0, true))
            && (i.Clra? ==> r.A() == 0 && r.B() == st.B() && FlagsOf8(r.cc, 0, 0, false))
            && (i.Clrb? ==> r.B() == 0 && r.A() == st.A() && FlagsOf8(r.cc, 0, 0, false))
            && (i.Sex? ==> Signed(r.d) == Signed8(st.B()) && (r.cc.n <==> Signed(r.d) < 0) && (r.cc.z <==> r.d == 0) && r.cc.v == st.cc.v && r.cc.c == st.cc.c)
  {
    hide Join;
    if i.Coma? { JoinParts(0xff - st.A(), st.B()); }
    else if i.Comb? { JoinParts(st.A(), 0xff - st.B()); }
    else if i.Clra? { JoinParts(0, st.B()); }
    else if i.Clrb? { JoinParts(st.A(), 0); }
  }

  lemma PlaceKeeps(m: Mode, st: Cpu)
    ensures Place(m, st).1.cc == st.cc && Place(m, st).1.d == st.d
  {
    hide ReadWord;
  }

  lemma ByteMode(m: Mode, st: Cpu)
    ensures Operand8(m, st).1.d == st.d && Operand8(m, st).1.cc == st.cc
  {
    hide ReadWord;
  }

  /** ASLB and ROLA: C is the bit shifted out. */
  lemma ShiftFlags(i: Instr, st: Cpu)
    requires i.Aslb? || i.Rola?
    ensures var r := Do(i, st);
            && (i.Aslb? ==> r.B() == 2 * st.B() % 0x100 && r.A() == st.A() && FlagsOf8(r.cc, r.B(), 2 * Signed8(st.B()), st.B() >= 0x80))
            && (i.Rola? ==>
                  var c := if st.cc.c then 1 else 0;
                  r.A() == (2 * st.A() + c) % 0x100 && r.B() == st.B() && FlagsOf8(r.cc, r.A(), 2 * Signed8(st.A()) + c, st.A() >= 0x80))
  {
    hide Join; hide Status8;
    if i.Aslb? {
      JoinParts(st.A(), Wrap8(2 * st.B()));
      StatusDoubled(st.B());
    } else {
      JoinParts(Wrap8(2 * st.A() + if st.cc.c then 1 else 0), st.B());
      RotatedFlags(st.A(), if st.cc.c then 1 else 0);
    }
  }

  lemma StatusDoubled(b: Byte)
    ensures FlagsOf8(Status8(b, b, Wrap8(2 * b), b >= 0x80), Wrap8(2 * b), 2 * Signed8(b), b >= 0x80)
  {}

  lemma RotatedFlags(a: Byte, c: int)
    requires 0 <= c <= 1
    ensures var r := Wrap8(2 * a + c);
            FlagsOf8(Flags(r >= 0x80, r == 0, (a >= 0x80) != (Wrap8(2 * a) >= 0x80), a >= 0x80), r, 2 * Signed8(a) + c, a >= 0x80)
  {}

  // ---------- testing the condition codes ----------

  /** `cc & 2^k` is the flag. */
  lemma FlagTest(cc: Byte, k: nat)
    requires k < 4
    ensures Bitwise8(AndBits, cc, Mask(k)) == if BitAt(cc, k) == 1 then Mask(k) else 0
  {
    hide BitAt; hide Bitwise;
    MaskIs(cc, 8, k);
    assert Pow2(k) == Mask(k) by { assert Pow2(2) == 4 && Pow2(3) == 8; }
  }

  /** `cc & 0x05` is zero when C and Z are. */
  lemma CarryOrZero(cc: Byte)
    ensures Bitwise8(AndBits, cc, 0x05) != 0 <==> FlagsOf(cc).c || FlagsOf(cc).z
  {
    hide BitAt;
    var c, z := cc % 2, cc / 2 / 2 % 2;
    Low(cc);
    NoBits(cc / 2 / 2 / 2, 5);
    assert Bitwise(AndBits, cc / 2 / 2, 1, 6) == z;
    assert Bitwise(AndBits, cc / 2, 2, 7) == 2 * z;
    assert Bitwise(AndBits, cc, 5, 8) == c + 4 * z;
  }

  /** `(cc & 0x08) ^ ((cc & 0x02) << 2)` */
  function NxorV(cc: Byte): Byte {
    Bitwise8(EorBits, Bitwise8(AndBits, cc, 0x08), Wrap8(4 * Bitwise8(AndBits, cc, 0x02)))
  }

  lemma NxorVIs(cc: Byte)
    ensures NxorV(cc) != 0 <==> FlagsOf(cc).n != FlagsOf(cc).v
  {
    hide BitAt; hide Bitwise8;
    FlagTest(cc, 3);
    FlagTest(cc, 1);
    ExorWithZero(8);
    ExorWithZero(0);
    ExorWithSelf(8);
  }

  class Processor {
    var iareg: Byte
    var ibreg: Byte
    var ixreg: Word
    var iyreg: Word
    var iureg: Word
    var isreg: Word
    var iccreg: Byte
    var mem: array<Byte>

    ghost predicate Valid()
      reads this
    {
      mem.Length == 0x1_0000
    }

    ghost function Now(): Cpu
      requires Valid()
      reads this, mem
    {
      Cpu(Join(iareg, ibreg), ixreg, iyreg, iureg, isreg, FlagsOf(iccreg), mem[..])
    }

    constructor ()
      ensures Valid() && fresh(mem)
    {
      iareg, ibreg, ixreg, iyreg, iureg, isreg, iccreg := 0, 0, 0, 0, 0, 0, 0;
      mem := new Byte[0x1_0000](_ => 0);
    }

    // ----- flags -----

    /** SEx and CLx for the flag of bit k. */
    method Flag(k: nat, on: bool)
      requires k < 8
      modifies this`iccreg
      ensures FlagsOf(iccreg) == With(FlagsOf(old(iccreg)), k, on)
    {
      FlagChanged(iccreg, k);
      iccreg := if on then SetBit(iccreg, k) else ClearBit(iccreg, k);
    }

    /** SETNZ8 */
    method SetNz8(b: Byte)
      modifies this`iccreg
      ensures FlagsOf(iccreg) == NZ8(FlagsOf(old(iccreg)), b)
    {
      hide Bitwise8; hide FlagsOf;
      TopMask(b);
      Flag(2, b == 0);
      Flag(3, Bitwise8(AndBits, b, 0x80) != 0);
    }

    /** SETNZ16 */
    method SetNz16(w: Word)
      modifies this`iccreg
      ensures FlagsOf(iccreg) == NZ16(FlagsOf(old(iccreg)), w)
    {
      hide Bitwise16; hide FlagsOf;
      Sign16(w);
      Flag(2, w == 0);
      Flag(3, Bitwise16(AndBits, w, 0x8000) != 0);
    }

    /** SETSTATUS */
    method SetStatus(a: Byte, b: Byte, res: Word)
      modifies this`iccreg
      ensures FlagsOf(iccreg) == Status8(a, b, res % 0x100, BitAt(res, 8) == 1)
    {
      hide Bitwise; hide BitAt; hide FlagsOf; hide OverflowMask; hide Pow2;
      Overflow8(a, b, res);
      Powers();
      MaskIs(res, 16, 8);
      Flag(5, OverflowMask(a, b, res, 16, 4) != 0);
      Flag(1, OverflowMask(a, b, res, 16, 7) != 0);
      Flag(0, Bitwise(AndBits, res, 0x100, 16) != 0);
      SetNz8(res % 0x100);
    }

    /** SETSTATUSD */
    method SetStatusD(a: Word, b: Word, res: nat)
      modifies this`iccreg
      ensures FlagsOf(iccreg) == Status16(a, b, res % 0x1_0000, BitAt(res, 16) == 1)
    {
      hide Bitwise; hide BitAt; hide FlagsOf; hide OverflowMask; hide Pow2;
      Overflow16(a, b, res);
      Powers();
      MaskIs(res, 32, 16);
      Flag(0, Bitwise(AndBits, res, 0x1_0000, 32) != 0);
      Flag(1, OverflowMask(a, b, res, 32, 15) != 0);
      SetNz16(res % 0x1_0000);
    }

    /** The condition of a branch instruction. */
    method Condition(c: Cond) returns (f: bool)
      requires Valid()
      ensures f == Holds(c, Now().cc)
    {
      hide Bitwise8; hide BitAt; hide NxorV;
      CarryOrZero(iccreg);
      NxorVIs(iccreg);
      FlagTest(iccreg, 0);
      FlagTest(iccreg, 2);
      var z := Bitwise8(AndBits, iccreg, 0x04) != 0;
      match c
      case EQ => f := z;
      case NE => f := !z;
      case GT => f := !(NxorV(iccreg) != 0 || z);
      case LE => f := NxorV(iccreg) != 0 || z;
      case GE => f := NxorV(iccreg) == 0;
      case LT => f := NxorV(iccreg) != 0;
      case HI => f := Bitwise8(AndBits, iccreg, 0x05) == 0;
      case LS => f := Bitwise8(AndBits, iccreg, 0x05) != 0;
      case HS => f := Bitwise8(AndBits, iccreg, 0x01) == 0;
      case LO => f := Bitwise8(AndBits, iccreg, 0x01) != 0;
    }

    // ----- memory -----

    method GetWord(a: Word) returns (w: Word)
      requires Valid()
      ensures w == ReadWord(mem[..], a)
    {
      w := Join(mem[a], mem[Wrap(a as int + 1)]);
    }

    /** Two separate bytes: the second address wraps around. */
    method SetWord(a: Word, w: Word)
      requires Valid()
      modifies mem
      ensures mem[..] == WriteWord(old(mem[..]), a, w)
    {
      mem[a] := w / 0x100;
      mem[Wrap(a as int + 1)] := w % 0x100;
    }

    /** The effective address; auto modes update their register. */
    method Address(m: Mode) returns (a: Word)
      requires Valid() && !m.Imm?
      modifies this`ixreg, this`isreg
      ensures (a, Now()) == Ea(m, old(Now()))
    {
      hide ReadWord; hide Wrap; hide FlagsOf; hide Join;
      match m
      case OffY(n) => a := Wrap(iyreg + n);
      case OffU(n) => a := Wrap(iureg + n);
      case OffX(n) => a := Wrap(ixreg + n);
      case OffS(n) => a := Wrap(isreg + n);
      case DX => a := Wrap(ixreg as int + Join(iareg, ibreg));
      case XInc(k) => a := ixreg; ixreg := Wrap(ixreg + k);
      case XDec(k) => a := Wrap(ixreg - k); ixreg := a;
      case SInc(k) => a := isreg; isreg := Wrap(isreg + k);
      case IndY(n) => a := GetWord(Wrap(iyreg + n));
      case IndU(n) => a := GetWord(Wrap(iureg + n));
    }

    method Word16(m: Mode) returns (w: Word)
      requires Valid()
      modifies this`ixreg, this`isreg
      ensures (w, Now()) == Operand16(m, old(Now()))
    {
      hide Ea; hide ReadWord; hide FlagsOf; hide Join;
      if m.Imm? { return Wrap(m.n); }
      var a := Address(m);
      w := GetWord(a);
    }

    method Byte8(m: Mode) returns (b: Byte)
      requires Valid()
      modifies this`ixreg, this`isreg
      ensures (b, Now()) == Operand8(m, old(Now()))
    {
      hide Ea; hide FlagsOf; hide Join;
      if m.Imm? { return Wrap8(m.n); }
      var a := Address(m);
      b := mem[a];
    }

    method Where(m: Mode) returns (a: Word)
      requires Valid()
      modifies this`ixreg, this`isreg
      ensures (a, Now()) == Place(m, old(Now()))
    {
      hide Ea; hide FlagsOf; hide Join;
      if m.Imm? { return 0; }
      a := Address(m);
    }

    /** SETDREG */
    method SetD(w: Word)
      modifies this`iareg, this`ibreg
      ensures Join(iareg, ibreg) == w
    {
      iareg, ibreg := w / 0x100, w % 0x100;
    }

    // ----- instructions -----

    method Load(w: Word, toX: bool)
      requires Valid()
      modifies this`iareg, this`ibreg, this`ixreg, this`iccreg
      ensures Now() == if toX then LoadX(old(Now()), w) else LoadD(old(Now()), w)
    {
      hide FlagsOf; hide Join;
      SetNz16(w);
      Flag(1, false);
      if toX { ixreg := w; } else { SetD(w); }
    }

    predicate Moves(i: Instr) {
      i.Ldd? || i.Ldb? || i.Ldx? || i.Std? || i.Stb? || i.Stx? || i.Leax? || i.Leas?
    }

    /** Loads, stores and LEA. */
    method Move(i: Instr)
      requires Valid() && Moves(i)
      modifies this, mem
      ensures mem == old(mem) && Now() == Do(i, old(Now()))
    {
      hide Operand16; hide Operand8; hide Place; hide WriteWord; hide Join; hide FlagsOf;
      JoinParts(iareg, ibreg);
      if i.Ldd? || i.Ldx? {
        var w := Word16(i.m);
        Load(w, i.Ldx?);
      } else if i.Ldb? {
        var b := Byte8(i.m);
        SetNz8(b);
        Flag(1, false);
        ibreg := b;
      } else if i.Std? || i.Stx? {
        var a := Where(i.m);
        var w := if i.Stx? then ixreg else Join(iareg, ibreg);
        SetWord(a, w);
        SetNz16(w);
        Flag(1, false);
      } else if i.Stb? {
        var a := Where(i.m);
        SetNz8(ibreg);
        Flag(1, false);
        mem[a] := ibreg;
      } else if i.Leax? {
        var a := Where(i.m);
        ixreg := a;
        Flag(2, ixreg == 0);
      } else {
        var a := Where(i.m);
        isreg := a;
      }
    }

    predicate Adds(i: Instr) { i.Addd? || i.Subd? || i.Cmpd? }

    /** ADDD, SUBD and CMPD: the 32-bit result gives the flags. */
    method Add(i: Instr)
      requires Valid() && Adds(i)
      modifies this`iareg, this`ibreg, this`ixreg, this`isreg, this`iccreg
      ensures Now() == Do(i, old(Now()))
    {
      hide Operand16; hide Join; hide FlagsOf; hide Wrap; hide Wrap32; hide BitAt;
      var w := Word16(i.m);
      var d := Join(iareg, ibreg);
      var wide := if i.Addd? then d as int + w else d as int - w;
      Carry16(wide);
      var res := Wrap32(wide);
      SetStatusD(d, w, res);
      if !i.Cmpd? { SetD(res % 0x1_0000); }
    }

    /** AND, OR and EOR of A or B. */
    method Logic(i: Instr)
      requires Valid() && (i.BitA? || i.BitB?)
      modifies this`iareg, this`ibreg, this`ixreg, this`isreg, this`iccreg
      ensures Now() == Do(i, old(Now()))
    {
      hide Operand8; hide Join; hide FlagsOf; hide Bitwise8;
      JoinParts(iareg, ibreg);
      var b := Byte8(i.m);
      if i.BitA? {
        iareg := Bitwise8(i.op, iareg, b);
        SetNz8(iareg);
      } else {
        ibreg := Bitwise8(i.op, ibreg, b);
        SetNz8(ibreg);
      }
      Flag(1, false);
    }

    /** INC and DEC of a byte in memory. */
    method Count(i: Instr)
      requires Valid() && (i.Inc? || i.Dec?)
      modifies this, mem
      ensures mem == old(mem) && Now() == Do(i, old(Now()))
    {
      hide Place; hide Wrap8; hide FlagsOf; hide Join;
      var a := Where(i.m);
      var tb := if i.Inc? then Wrap8(mem[a] as int + 1) else Wrap8(mem[a] as int - 1);
      Flag(1, if i.Inc? then tb == 0x80 else tb == 0x7f);
      SetNz8(tb);
      mem[a] := tb;
    }

    predicate Negates(i: Instr) { i.Sex? || i.Nega? || i.Negb? || i.Sbca? }

    /** Sign changes: `tw` is the 16-bit result. */
    method Negate(i: Instr)
      requires Valid() && Negates(i)
      modifies this`iareg, this`ibreg, this`iccreg
      ensures Now() == Do(i, old(Now()))
    {
      hide Operand16; hide Operand8; hide Place; hide LoadD; hide LoadX; hide LoadB; hide StoreWord; hide StoreByte;
      hide AddTo; hide SubFrom; hide Compare; hide Library;
      hide Sext; hide Join; hide Wrap; hide Wrap8; hide Status8; hide BitAt; hide Bitwise8; hide FlagsOf;
      JoinParts(iareg, ibreg);
      if i.Sex? {
        var tw := Sext(ibreg);
        SetNz16(tw);
        SetD(tw);
      } else if i.Nega? {
        Carry8(-(iareg as int));
        var tw := Wrap(-(iareg as int));
        SetStatus(0, iareg, tw);
        iareg := tw % 0x100;
      } else if i.Negb? {
        Carry8(-(ibreg as int));
        var tw := Wrap(-(ibreg as int));
        SetStatus(0, ibreg, tw);
        ibreg := tw % 0x100;
      } else {
        CarryFlag(iccreg);
        var b := Wrap8(i.n);
        var wide := iareg as int - b - Bitwise8(AndBits, iccreg, 0x01);
        Carry8(wide);
        SetStatus(iareg, b, Wrap(wide));
        iareg := Wrap(wide) % 0x100;
      }
    }

    method Complement(i: Instr)
      requires Valid() && (i.Coma? || i.Comb?)
      modifies this`iareg, this`ibreg, this`iccreg
      ensures Now() == Do(i, old(Now()))
    {
      hide Join; hide FlagsOf;
      JoinParts(iareg, ibreg);
      var tb := 0xff - if i.Coma? then iareg else ibreg;
      SetNz8(tb);
      Flag(0, true);
      Flag(1, false);
      if i.Coma? { iareg := tb; } else { ibreg := tb; }
    }

    predicate Shifts(i: Instr) { i.Clra? || i.Clrb? || i.Aslb? || i.Rola? }

    /** Clearing and shifting. */
    method Shift(i: Instr)
      requires Valid() && Shifts(i)
      modifies this`iareg, this`ibreg, this`iccreg
      ensures Now() == Do(i, old(Now()))
    {
      hide Operand16; hide Operand8; hide Place; hide LoadD; hide LoadX; hide LoadB; hide StoreWord; hide StoreByte;
      hide AddTo; hide SubFrom; hide Compare; hide Library;
      hide Join; hide Wrap; hide Wrap8; hide Status8; hide FlagsOf; hide BitAt; hide Bitwise8;
      JoinParts(iareg, ibreg);
      if i.Clra? || i.Clrb? {
        if i.Clra? { iareg := 0; } else { ibreg := 0; }
        Flag(3, false);
        Flag(1, false);
        Flag(2, true);
        Flag(0, false);
      } else if i.Aslb? {
        ShiftLeft();
      } else {
        RotateLeft();
      }
    }

    /** ASLB */
    method ShiftLeft()
      requires Valid()
      modifies this`ibreg, this`iccreg
      ensures Now() == Do(Aslb, old(Now()))
    {
      hide Operand16; hide Operand8; hide Place; hide LoadD; hide LoadX; hide LoadB; hide StoreWord; hide StoreByte;
      hide AddTo; hide SubFrom; hide Compare; hide Library;
      hide Join; hide Wrap; hide Wrap8; hide Status8; hide FlagsOf; hide BitAt;
      JoinParts(iareg, ibreg);
      Carry8(2 * (ibreg as int));
      var tw := Wrap(2 * (ibreg as int));
      SetStatus(ibreg, ibreg, tw);
      ibreg := tw % 0x100;
    }

    /** ROLA */
    method RotateLeft()
      requires Valid()
      modifies this`iareg, this`iccreg
      ensures Now() == Do(Rola, old(Now()))
    {
      hide Operand16; hide Operand8; hide Place; hide LoadD; hide LoadX; hide LoadB; hide StoreWord; hide StoreByte;
      hide AddTo; hide SubFrom; hide Compare; hide Library;
      hide Join; hide Wrap; hide Wrap8; hide FlagsOf; hide BitAt; hide Bitwise8;
      JoinParts(iareg, ibreg);
      CarryFlag(iccreg);
      TopMask(iareg);
      TopMask(Wrap8(2 * (iareg as int)));
      ExorWithZero(0x80);
      ExorWithZero(0);
      ExorWithSelf(0x80);
      var tw := Bitwise8(AndBits, iccreg, 0x01);
      Flag(0, Bitwise8(AndBits, iareg, 0x80) != 0);
      Flag(1, Bitwise8(EorBits, Bitwise8(AndBits, iareg, 0x80), Bitwise8(AndBits, Wrap8(2 * (iareg as int)), 0x80)) != 0);
      iareg := Wrap8(2 * (iareg as int) + tw);
      SetNz8(iareg);
    }

    /** PUSHWORD */
    method PushWord(w: Word)
      requires Valid()
      modifies this`isreg, mem
      ensures Now() == Push(old(Now()), w)
    {
      hide WriteWord; hide FlagsOf; hide Join;
      isreg := Wrap(isreg as int - 2);
      SetWord(isreg, w);
    }

    /** PULLWORD */
    method PullWord() returns (w: Word)
      requires Valid()
      modifies this`isreg
      ensures w == Top(old(Now())) && Now() == Pop(old(Now()))
    {
      hide ReadWord; hide FlagsOf; hide Join;
      w := GetWord(isreg);
      isreg := Wrap(isreg as int + 2);
    }

    predicate OnStack(i: Instr) { i.PshsD? || i.PulsD? || i.PulsX? || i.PshsU? }

    /** Pushes and pulls. */
    method Stack(i: Instr)
      requires Valid() && OnStack(i)
      modifies this`isreg, this`iareg, this`ibreg, this`ixreg, mem
      ensures Now() == Do(i, old(Now()))
    {
      hide Operand16; hide Operand8; hide Place; hide LoadD; hide LoadX; hide LoadB; hide StoreWord; hide StoreByte;
      hide AddTo; hide SubFrom; hide Compare; hide Library;
      hide WriteWord; hide ReadWord; hide FlagsOf; hide Join;
      if i.PshsD? {
        PushWord(Join(iareg, ibreg));
      } else if i.PulsD? {
        var w := PullWord();
        SetD(w);
      } else if i.PulsX? {
        ixreg := PullWord();
      } else {
        PushWord(iureg);
      }
    }

    /** Transfers between registers. */
    method Transfer(i: Instr)
      requires Valid() && (i.TfrDX? || i.TfrXD? || i.LeauS? || i.LeasU?)
      modifies this`iareg, this`ibreg, this`ixreg, this`iureg, this`isreg
      ensures Now() == Do(i, old(Now()))
    {
      hide Operand16; hide Operand8; hide Place; hide LoadD; hide LoadX; hide LoadB; hide StoreWord; hide StoreByte;
      hide AddTo; hide SubFrom; hide Compare; hide Library;
      hide FlagsOf; hide Join;
      if i.TfrDX? { ixreg := Join(iareg, ibreg); }
      else if i.TfrXD? { SetD(ixreg); }
      else if i.LeauS? { iureg := isreg; }
      else { isreg := iureg; }
    }

    /** Any instruction that is not a jump or a call. */
    method Execute(i: Instr)
      requires Valid() && Straight(i) && !i.Lbsr?
      modifies this, mem
      ensures mem == old(mem) && Now() == Do(i, old(Now()))
    {
      hide Do;
      if Moves(i) { Move(i); }
      else if Adds(i) { Add(i); }
      else if i.BitA? || i.BitB? { Logic(i); }
      else if i.Inc? || i.Dec? { Count(i); }
      else if Negates(i) { Negate(i); }
      else if i.Coma? || i.Comb? { Complement(i); }
      else if Shifts(i) { Shift(i); }
      else if OnStack(i) { Stack(i); }
      else { Transfer(i); }
    }
  }

  lemma CarryFlag(cc: Byte)
    ensures Bitwise8(AndBits, cc, 0x01) == if FlagsOf(cc).c then 1 else 0
  {
    FlagTest(cc, 0);
  }
}
