/** Bitwise operations on words against the same operations on their bytes. */
module Bits {
  import opened Machine
  import opened Arith

  function Quot(a: nat, p: nat): nat
    requires p >= 1
  {
    a / p
  }

  function Rem(a: nat, p: nat): nat
    requires p >= 1
  {
    a % p
  }

  lemma {:induction false} BitwiseSplit(op: BitOp, a: nat, b: nat, j: nat, k: nat)
    ensures Bitwise(op, a, b, j + k) ==
            Bitwise(op, Rem(a, Pow2(j)), Rem(b, Pow2(j)), j)
            + Pow2(j) * Bitwise(op, Quot(a, Pow2(j)), Quot(b, Pow2(j)), k)
    decreases j
  {
    hide Quot; hide Rem; hide Bitwise; hide Bit;
    if j == 0 {
      HalfMod1(a); HalfMod1(b);
      BitwiseNone(op, Rem(a, 1), Rem(b, 1));
    } else {
      var p: nat := Pow2(j - 1);
      BitwiseSplit(op, a / 2, b / 2, j - 1, k);
      HalfMod(a, p); HalfMod(b, p);
      var hi := Bitwise(op, Quot(a, 2 * p), Quot(b, 2 * p), k);
      var lo := Bitwise(op, Rem(a, 2 * p) / 2, Rem(b, 2 * p) / 2, j - 1);
      assert Bitwise(op, a / 2, b / 2, j - 1 + k) == lo + p * hi;
      BitwiseStep(op, a, b, j + k);
      BitwiseStep(op, Rem(a, 2 * p), Rem(b, 2 * p), j);
      Weave(Bit(op, a % 2, b % 2), lo, p, hi);
    }
  }

  lemma Weave(bit: int, lo: int, p: int, hi: int)
    ensures bit + 2 * (lo + p * hi) == (bit + 2 * lo) + 2 * p * hi
  {}

  lemma BitwiseNone(op: BitOp, a: nat, b: nat)
    ensures Bitwise(op, a, b, 0) == 0
  {}

  lemma BitwiseStep(op: BitOp, a: nat, b: nat, k: nat)
    requires k > 0
    ensures Bitwise(op, a, b, k) == Bit(op, a % 2, b % 2) + 2 * Bitwise(op, a / 2, b / 2, k - 1)
  {}

  lemma HalfMod1(a: nat)
    ensures Rem(a, 1) == 0 && Quot(a, 1) == a
  {}

  lemma HalfMod(a: nat, p: nat)
    requires p >= 1
    ensures Rem(a, 2 * p) / 2 == Rem(a / 2, p)
    ensures Rem(a, 2 * p) % 2 == a % 2
    ensures Quot(a, 2 * p) == Quot(a / 2, p)
  {
    var q, r := a / 2 / p, a / 2 % p;
    assert a / 2 == p * q + r;
    assert 2 * (p * q) == (2 * p) * q;
    DivUnique(a, 2 * p, q, 2 * r + a % 2);
  }

  /** The word operation is the two byte operations side by side. */
  lemma BitwiseHalves(op: BitOp, a: Word, b: Word)
    ensures Bitwise16(op, a, b) == Join(Bitwise8(op, a / 0x100, b / 0x100), Bitwise8(op, a % 0x100, b % 0x100))
  {
    Pow8();
    BitwiseSplit(op, a, b, 8, 8);
  }
}
