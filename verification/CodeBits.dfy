/** Single bits of bytes and words: masks, and the flags in the condition code register. */
module CodeBits {
  import opened Machine
  import opened Runtime
  import opened Bits

  function BitAt(n: nat, k: nat): int
    decreases k
  {
    if k == 0 then n % 2 else BitAt(n / 2, k - 1)
  }

  lemma {:induction false} BitOf(op: BitOp, a: nat, b: nat, n: nat, k: nat)
    requires k < n
    ensures BitAt(Bitwise(op, a, b, n), k) == Bit(op, BitAt(a, k), BitAt(b, k))
  {
    var r := Bitwise(op, a / 2, b / 2, n - 1);
    assert Bitwise(op, a, b, n) == Bit(op, a % 2, b % 2) + 2 * r;
    if k > 0 { BitOf(op, a / 2, b / 2, n - 1, k - 1); }
  }

  /** `x & 2^k` keeps bit k of x in its place. */
  lemma {:induction false} MaskIs(x: nat, n: nat, k: nat)
    requires k < n
    ensures Bitwise(AndBits, x, Pow2(k), n) == if BitAt(x, k) == 1 then Pow2(k) else 0
  {
    if k > 0 {
      assert Pow2(k) == 2 * Pow2(k - 1);
      MaskIs(x / 2, n - 1, k - 1);
    } else {
      NoBits(x / 2, n - 1);
    }
  }

  lemma {:induction false} NoBits(x: nat, n: nat)
    ensures Bitwise(AndBits, x, 0, n) == 0
  {
    if n > 0 { NoBits(x / 2, n - 1); }
  }

  /** Bit k as a quotient. */
  lemma {:induction false} BitIs(x: nat, k: nat)
    ensures BitAt(x, k) == x / Pow2(k) % 2
  {
    if k > 0 {
      BitIs(x / 2, k - 1);
      DivDiv(x, Pow2(k - 1));
    }
  }

  /** The flags that compiled code looks at: C, V, Z and N are bits 0 to 3. */
  function FlagsOf(cc: Byte): Flags {
    Flags(BitAt(cc, 3) == 1, BitAt(cc, 2) == 1, BitAt(cc, 1) == 1, BitAt(cc, 0) == 1)
  }

  /** f with the flag of bit k set to `on`. */
  function With(f: Flags, k: nat, on: bool): Flags {
    if k == 0 then f.(c := on) else if k == 1 then f.(v := on)
    else if k == 2 then f.(z := on) else if k == 3 then f.(n := on) else f
  }

  /** `cc |= 2^k`. */
  function SetBit(cc: Byte, k: nat): Byte
    requires k < 8
  {
    Bitwise8(OrBits, cc, Mask(k))
  }

  /** `cc &= ~2^k`. */
  function ClearBit(cc: Byte, k: nat): Byte
    requires k < 8
  {
    Bitwise8(AndBits, cc, 0xff - Mask(k))
  }

  function Mask(k: nat): Byte
    requires k < 8
  {
    if k == 0 then 0x01 else if k == 1 then 0x02 else if k == 2 then 0x04 else if k == 3 then 0x08
    else if k == 4 then 0x10 else if k == 5 then 0x20 else if k == 6 then 0x40 else 0x80
  }

  lemma MaskBits(k: nat, j: nat)
    requires k < 8 && j < 8
    ensures BitAt(Mask(k), j) == (if j == k then 1 else 0) && BitAt(0xff - Mask(k), j) == (if j == k then 0 else 1)
  {
    hide BitAt;
    Low(Mask(k)); Low(0xff - Mask(k));
  }

  /** The eight bits of a byte, written out. */
  lemma Low(b: Byte)
    ensures BitAt(b, 0) == b % 2 && BitAt(b, 1) == b / 2 % 2 && BitAt(b, 2) == b / 2 / 2 % 2 && BitAt(b, 3) == b / 2 / 2 / 2 % 2
    ensures BitAt(b, 4) == b / 2 / 2 / 2 / 2 % 2 && BitAt(b, 5) == b / 2 / 2 / 2 / 2 / 2 % 2
    ensures BitAt(b, 6) == b / 2 / 2 / 2 / 2 / 2 / 2 % 2 && BitAt(b, 7) == b / 2 / 2 / 2 / 2 / 2 / 2 / 2 % 2
  {}

  /** Setting and clearing a bit of the register changes that flag and no other. */
  lemma FlagChanged(cc: Byte, k: nat)
    requires k < 8
    ensures FlagsOf(SetBit(cc, k)) == With(FlagsOf(cc), k, true)
    ensures FlagsOf(ClearBit(cc, k)) == With(FlagsOf(cc), k, false)
  {
    hide Bitwise; hide BitAt; hide Mask;
    forall j | 0 <= j < 4
      ensures BitAt(SetBit(cc, k), j) == (if j == k then 1 else BitAt(cc, j))
      ensures BitAt(ClearBit(cc, k), j) == (if j == k then 0 else BitAt(cc, j))
    {
      BitOf(OrBits, cc, Mask(k), 8, j);
      BitOf(AndBits, cc, 0xff - Mask(k), 8, j);
      MaskBits(k, j);
      BitIsBit(cc, j);
    }
    assert 0 <= 0 < 4 && 0 <= 1 < 4 && 0 <= 2 < 4 && 0 <= 3 < 4;
  }

  lemma {:induction false} BitIsBit(n: nat, k: nat)
    ensures 0 <= BitAt(n, k) <= 1
  {
    if k > 0 { BitIsBit(n / 2, k - 1); }
  }

  lemma ExorWithZero(a: Byte)
    ensures Bitwise8(EorBits, a, 0) == a && Bitwise8(EorBits, 0, a) == a
  {
    Pow8();
    ExorNothing(a, 8);
  }

  lemma {:induction false} ExorNothing(a: nat, n: nat)
    requires a < Pow2(n)
    ensures Bitwise(EorBits, a, 0, n) == a && Bitwise(EorBits, 0, a, n) == a
  {
    if n > 0 { ExorNothing(a / 2, n - 1); }
  }

  lemma ExorWithSelf(a: Byte)
    ensures Bitwise8(EorBits, a, a) == 0
  {
    ExorItself(a, 8);
  }

  lemma {:induction false} ExorItself(a: nat, n: nat)
    ensures Bitwise(EorBits, a, a, n) == 0
  {
    if n > 0 { ExorItself(a / 2, n - 1); }
  }

  /** `cc | 0x80` and `cc & 0x7f`. */
  lemma TopBitSet(cc: Byte)
    ensures Bitwise8(OrBits, cc, 0x80) == if cc >= 0x80 then cc else cc + 0x80
    ensures Bitwise8(AndBits, cc, 0x7f) == cc % 0x80
  {
    hide Bitwise; hide Pow2;
    SevenBits();
    BitwiseSplit(OrBits, cc, 0x80, 7, 1);
    BitwiseSplit(AndBits, cc, 0x7f, 7, 1);
    LowBits(cc % 0x80, 7);
    OneBit(cc / 0x80);
  }

  /** `b & 0x80` */
  lemma TopMask(b: Byte)
    ensures Bitwise8(AndBits, b, 0x80) == if b >= 0x80 then 0x80 else 0
  {
    hide BitAt; hide Pow2; hide Bitwise;
    SevenBits();
    MaskIs(b, 8, 7);
    BitIs(b, 7);
  }

  lemma SevenBits()
    ensures Pow2(7) == 0x80
  {
    assert Pow2(3) == 8;
  }

  lemma OneBit(b: nat)
    requires b <= 1
    ensures Bitwise(OrBits, b, 1, 1) == 1 && Bitwise(AndBits, b, 0, 1) == 0
  {}

  lemma {:induction false} LowBits(a: nat, n: nat)
    requires a < Pow2(n)
    ensures Bitwise(OrBits, a, 0, n) == a && Bitwise(AndBits, a, Pow2(n) - 1, n) == a
  {
    if n > 0 {
      var p := Pow2(n - 1);
      assert (2 * p - 1) / 2 == p - 1 && (2 * p - 1) % 2 == 1;
      LowBits(a / 2, n - 1);
    }
  }
}
