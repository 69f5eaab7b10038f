/**
  Binary to packed decimal by doubling: int2bcd of the floating BASIC, on the ADCA and DAA
  that the emulator executes, for buffers of any length.
 */
module Bcd {
  import opened Machine
  import opened Arith

  // ---------- the two instructions ----------

  function BitAt4(n: int): int { (n / 0x10) % 2 }

  /** ADCA: the byte, the carry and the half carry, which is bit 4 of a ^ b ^ sum. */
  function Adca(a: Byte, b: Byte, c: bool): (Byte, bool, bool) {
    var sum := a + b + if c then 1 else 0;
    (Wrap8(sum), sum >= 0x100, (BitAt4(a) + BitAt4(b) + BitAt4(sum)) % 2 == 1)
  }

  /** The first two steps of DAA correct the low digit, the last two the high one. */
  function DaaLow(a: Byte, h: bool): int {
    var t := if h then a + 6 else a;
    if t % 0x10 > 9 then t + 6 else t
  }

  function DaaHigh(t: int, c: bool): (Byte, bool) {
    var t2 := if c then t + 0x60 else t;
    var t3 := if (t2 / 0x10) % 0x10 > 9 then t2 + 0x60 else t2;
    (Wrap8(t3), c || (t3 / 0x100) % 2 == 1)
  }

  /** DAA: the byte and the carry, which is never cleared. */
  function Daa(a: Byte, c: bool, h: bool): (Byte, bool) { DaaHigh(DaaLow(a, h), c) }

  // ---------- packed decimal ----------

  predicate Packed(a: Byte) { a / 0x10 <= 9 && a % 0x10 <= 9 }

  function Tens(a: Byte): nat { 10 * (a / 0x10) + a % 0x10 }

  predicate AllPacked(s: seq<Byte>) { forall i :: 0 <= i < |s| ==> Packed(s[i]) }

  /** Most significant byte first. */
  function BcdValue(s: seq<Byte>): nat {
    if s == [] then 0 else 100 * BcdValue(s[..|s| - 1]) + Tens(s[|s| - 1])
  }

  function BinValue(s: seq<Byte>): nat {
    if s == [] then 0 else 0x100 * BinValue(s[..|s| - 1]) + s[|s| - 1]
  }

  function Pow100(n: nat): (p: nat)
    ensures p > 0
  {
    if n == 0 then 1 else 100 * Pow100(n - 1)
  }

  function Bit1(c: bool): nat { if c then 1 else 0 }

  /** LDA, ADCA, DAA, STA on one byte. */
  function DoubleByte(a: Byte, c: bool): (Byte, bool) {
    var (t, c1, h) := Adca(a, a, c);
    Daa(t, c1, h)
  }

  /** DAA's first half on twice the digits h and l plus a carry; d is the high digit so far. */
  lemma LowDigit(h: nat, l: nat, c: nat)
    requires h <= 9 && l <= 9 && c <= 1
    ensures var s := 2 * l + c;
            var sum := 0x20 * h + s;
            var up := if s >= 10 then 1 else 0;
            var d := if h >= 8 then 2 * h - 0x10 + up else 2 * h + up;
            (BitAt4(sum) == 1) == (s >= 0x10) && DaaLow(Wrap8(sum), s >= 0x10) == 0x10 * d + (s - 10 * up)
  {
    hide Wrap8; hide DaaLow;
    var s := 2 * l + c;
    LowByte(h, s);
    BitOfSum(h, s);
    LowCorrect(if h >= 8 then 2 * h - 0x10 else 2 * h, s);
  }

  lemma BitOfSum(h: nat, s: nat)
    requires s <= 19
    ensures (BitAt4(0x20 * h + s) == 1) == (s >= 0x10)
  {
    assert (0x20 * h + s) / 0x10 == 2 * h + s / 0x10;
  }

  lemma LowByte(h: nat, s: nat)
    requires h <= 9 && s <= 19
    ensures Wrap8(0x20 * h + s) == if h >= 8 then 0x20 * h + s - 0x100 else 0x20 * h + s
  {}

  lemma LowCorrect(k: nat, s: nat)
    requires k <= 14 && s <= 19 && 0x10 * k + s < 0x100
    ensures DaaLow(0x10 * k + s, s >= 0x10) == 0x10 * (if s >= 10 then k + 1 else k) + (if s >= 10 then s - 10 else s)
  {
    if s >= 0x10 { assert (0x10 * k + s + 6) % 0x10 == s + 6 - 0x10; }
    else { assert (0x10 * k + s) % 0x10 == s; }
  }

  /** Its second half, from the high digit d before correction. */
  lemma HighDigit(d: int, e: int, c: bool)
    requires 0 <= e <= 9 && if c then 0 <= d <= 3 else 0 <= d <= 15
    ensures DaaHigh(0x10 * d + e, c) == (0x10 * (if c then d + 6 else if d >= 10 then d - 10 else d) + e, c || d >= 10)
  {
    if c { assert 0x10 * d + e + 0x60 == 0x10 * (d + 6) + e; }
    else if d >= 10 { assert 0x10 * d + e + 0x60 == 0x100 + 0x10 * (d - 10) + e; }
  }

  /** ADCA and DAA together double a packed byte, with carries in and out. */
  lemma DoubleExact(a: Byte, c: bool)
    requires Packed(a)
    ensures var (r, c') := DoubleByte(a, c);
            Packed(r) && 100 * Bit1(c') + Tens(r) == 2 * Tens(a) + Bit1(c)
  {
    hide Wrap8; hide BitAt4; hide DaaLow; hide DaaHigh;
    var h, l := a / 0x10, a % 0x10;
    var s := 2 * l + Bit1(c);
    var up := if s >= 10 then 1 else 0;
    var d := if h >= 8 then 2 * h - 0x10 + up else 2 * h + up;
    assert a + a + Bit1(c) == 0x20 * h + s;
    BitIsBit(a, 0x20 * h + s);
    LowDigit(h, l, Bit1(c));
    HighDigit(d, s - 10 * up, 0x20 * h + s >= 0x100);
    TwoDigits(if h >= 8 then d + 6 else if d >= 10 then d - 10 else d, s - 10 * up);
  }

  lemma BitIsBit(a: Byte, sum: int)
    ensures ((BitAt4(a) + BitAt4(a) + BitAt4(sum)) % 2 == 1) == (BitAt4(sum) == 1)
  {}

  lemma TwoDigits(d: int, e: int)
    requires 0 <= d <= 9 && 0 <= e <= 9
    ensures (0x10 * d + e) / 0x10 == d && (0x10 * d + e) % 0x10 == e
  {}

  // ---------- the chain over a buffer ----------

  lemma {:induction false} ValueFirst(s: seq<Byte>)
    requires s != []
    ensures BcdValue(s) == Tens(s[0]) * Pow100(|s| - 1) + BcdValue(s[1..])
  {
    if |s| == 1 {
      assert s[..0] == [] && s[1..] == [];
      assert Pow100(0) == 1;
    } else {
      var f := s[..|s| - 1];
      ValueFirst(f);
      assert s[1..][..|s| - 2] == f[1..];
      assert Pow100(|s| - 1) == 100 * Pow100(|s| - 2);
      assert f[0] == s[0] && s[1..][|s| - 2] == s[|s| - 1];
      Distribute(Tens(s[0]), Pow100(|s| - 2));
    }
  }

  lemma Distribute(a: nat, p: nat)
    ensures 100 * (a * p) == a * (100 * p)
  {}

  lemma {:induction false} ValueBound(s: seq<Byte>)
    requires AllPacked(s)
    ensures BcdValue(s) < Pow100(|s|)
  {
    if s != [] { ValueBound(s[..|s| - 1]); }
  }

  /** One byte more of the chain: byte k doubled with carry c on top of the bytes after it. */
  lemma ChainStep(was: seq<Byte>, now: seq<Byte>, k: nat, c: bool, c': bool, c0: bool, p: nat)
    requires k < |was| == |now| && p == Pow100(|was| - 1 - k)
    requires BcdValue(now[k + 1..]) + p * Bit1(c) == 2 * BcdValue(was[k + 1..]) + Bit1(c0)
    requires 100 * Bit1(c') + Tens(now[k]) == 2 * Tens(was[k]) + Bit1(c)
    ensures BcdValue(now[k..]) + Pow100(|was| - k) * Bit1(c') == 2 * BcdValue(was[k..]) + Bit1(c0)
  {
    ValueFirst(was[k..]);
    ValueFirst(now[k..]);
    assert was[k..][1..] == was[k + 1..] && now[k..][1..] == now[k + 1..];
    assert Pow100(|was| - k) == 100 * p;
    ChainSum(Tens(was[k]), Tens(now[k]), p, Bit1(c), Bit1(c'));
  }

  lemma ChainSum(a: nat, b: nat, p: nat, c: nat, c': nat)
    requires 100 * c' + b == 2 * a + c
    ensures b * p + 100 * p * c' == 2 * (a * p) + p * c
  {
    assert (100 * c' + b) * p == (2 * a + c) * p;
    assert (100 * c' + b) * p == 100 * p * c' + b * p;
    assert (2 * a + c) * p == 2 * (a * p) + p * c;
  }

  /** The five LDA, ADCA, DAA, STA groups: double the buffer and add a bit. */
  method DoubleBuffer(buf: array<Byte>, c0: bool) returns (c: bool)
    requires AllPacked(buf[..])
    modifies buf
    ensures AllPacked(buf[..])
    ensures BcdValue(buf[..]) + Pow100(buf.Length) * Bit1(c) == 2 * BcdValue(old(buf[..])) + Bit1(c0)
  {
    hide DoubleByte;
    c := c0;
    var k := buf.Length;
    ghost var was := buf[..];
    assert was[k..] == [] && buf[..][k..] == [];
    while k > 0
      invariant 0 <= k <= buf.Length && AllPacked(buf[..]) && buf[..][..k] == was[..k]
      invariant BcdValue(buf[..][k..]) + Pow100(buf.Length - k) * Bit1(c) == 2 * BcdValue(was[k..]) + Bit1(c0)
    {
      k := k - 1;
      assert buf[k] == was[k] by { assert buf[..][..k + 1][k] == was[..k + 1][k]; }
      ghost var before, cin := buf[..], c;
      DoubleExact(buf[k], c);
      var (r, c1) := DoubleByte(buf[k], c);
      buf[k], c := r, c1;
      assert buf[..] == before[k := r];
      assert buf[..][k + 1..] == before[k + 1..] && buf[..][..k] == before[..k + 1][..k] && was[..k] == was[..k + 1][..k];
      ChainStep(was, buf[..], k, cin, c, c0, Pow100(buf.Length - 1 - k));
    }
    assert buf[..][0..] == buf[..] && was[0..] == was;
  }

  // ---------- the bits of a byte ----------

  /** ROL of a byte that holds `rest` above p = 2^j bits already rotated in. */
  lemma RolBit(x: Byte, rest: nat, junk: nat, p: nat, r: nat, cin: nat)
    requires p * r == 0x80 && x == rest * p + junk && junk < p && rest < 2 * r && cin <= 1
    ensures x >= 0x80 <==> rest >= r
    ensures var bit := if rest >= r then 1 else 0;
            Wrap8(2 * x + cin) == (rest - bit * r) * (2 * p) + (2 * junk + cin) && 2 * junk + cin < 2 * p
  {
    hide Wrap8;
    RolTop(x, rest, junk, p, r);
    RolWrap(x, cin);
    RolRest(rest, p, r, if rest >= r then 1 else 0);
  }

  lemma RolTop(x: Byte, rest: nat, junk: nat, p: nat, r: nat)
    requires p * r == 0x80 && x == rest * p + junk && junk < p
    ensures x >= 0x80 <==> rest >= r
  {
    if rest >= r { MulUp(rest, r, p); } else { MulUp(r - 1, rest, p); assert (r - 1) * p == p * r - p; }
  }

  lemma MulUp(a: nat, b: nat, p: nat)
    requires a >= b
    ensures a * p >= b * p
  {}

  lemma RolWrap(x: Byte, cin: nat)
    requires cin <= 1
    ensures Wrap8(2 * x + cin) == if x >= 0x80 then 2 * x + cin - 0x100 else 2 * x + cin
  {}

  lemma RolRest(rest: nat, p: nat, r: nat, bit: nat)
    requires p * r == 0x80
    ensures (rest - bit * r) * (2 * p) == 2 * (rest * p) - 0x100 * bit
  {
    assert (bit * r) * (2 * p) == 2 * bit * (p * r);
  }

  /** 2^j, 2^(8-j). */
  lemma PowPair(j: nat)
    requires j < 8
    ensures Pow2(j) * Pow2(7 - j) == 0x80 && Pow2(8 - j) == 2 * Pow2(7 - j) && Pow2(j + 1) == 2 * Pow2(j)
  {
    if j == 0 { assert Pow2(7) == 0x80 by { assert Pow2(3) == 8; } }
    else { PowPair0(j, 7 - j); }
  }

  lemma {:induction false} PowPair0(a: nat, b: nat)
    requires a + b == 7
    ensures Pow2(a) * Pow2(b) == 0x80
  {
    if a == 0 { assert Pow2(3) == 8; assert Pow2(7) == 0x80; }
    else {
      PowPair0(a - 1, b + 1);
      assert Pow2(a) * Pow2(b) == 2 * Pow2(a - 1) * Pow2(b) == Pow2(a - 1) * (2 * Pow2(b));
    }
  }

  /** A doubled buffer holds the doubled number, up to its size. */
  lemma DoubledMod(old': nat, new': nat, p: nat, acc: nat, bit: nat, c: nat)
    requires p > 0 && old' == acc % p && new' + p * c == 2 * old' + bit && new' < p
    ensures new' == (2 * acc + bit) % p
  {
    var q := acc / p;
    assert acc == p * q + old';
    assert 2 * acc + bit == p * (2 * q + c) + new' by { assert p * (2 * q + c) == 2 * (p * q) + p * c; }
    DivUnique(2 * acc + bit, p, 2 * q + c, new');
  }

  /** The inner loop of int2bcd: the eight bits of x[i], highest first, with `acc` the value
      of the bytes before it. */
  method AddByte(x: array<Byte>, i: nat, buf: array<Byte>, c0: bool, ghost acc: nat) returns (c: bool)
    requires x != buf && i < x.Length && AllPacked(buf[..]) && BcdValue(buf[..]) == acc % Pow100(buf.Length)
    modifies x, buf
    ensures AllPacked(buf[..]) && BcdValue(buf[..]) == (0x100 * acc + old(x[i])) % Pow100(buf.Length)
    ensures forall k :: 0 <= k < x.Length && k != i ==> x[k] == old(x[k])
  {
    hide Pow2; hide Pow100; hide BcdValue; hide AllPacked; hide Wrap8;
    c := c0;
    ghost var w := x[i];
    ghost var done, rest, junk: nat, j: nat := acc, w as nat, 0, 0;
    PowEnds();
    var b := 8;
    while b > 0
      invariant 0 <= b <= 8 && j == 8 - b && AllPacked(buf[..])
      invariant forall k :: 0 <= k < x.Length && k != i ==> x[k] == old(x[k])
      invariant x[i] == rest * Pow2(j) + junk && junk < Pow2(j) && 0 <= rest < Pow2(8 - j) && done >= 0
      invariant done * Pow2(8 - j) + rest == 0x100 * acc + w
      invariant BcdValue(buf[..]) == done % Pow100(buf.Length)
    {
      PowPair(j);
      RolBit(x[i], rest, junk, Pow2(j), Pow2(7 - j), Bit1(c));
      var bit := x[i] >= 0x80;
      x[i] := Wrap8(2 * x[i] + Bit1(c));
      junk := 2 * junk + Bit1(c);
      ghost var before := BcdValue(buf[..]);
      c := DoubleBuffer(buf, bit);
      ValueBound(buf[..]);
      DoubledMod(before, BcdValue(buf[..]), Pow100(buf.Length), done, Bit1(bit), Bit1(c));
      NextBit(done, rest, Pow2(7 - j), Bit1(bit), 0x100 * acc + w);
      rest := rest - Bit1(bit) * Pow2(7 - j);
      done := 2 * done + Bit1(bit);
      j := j + 1;
      b := b - 1;
    }
  }

  lemma PowEnds()
    ensures Pow2(0) == 1 && Pow2(8) == 0x100
  {
    Pow8();
  }

  lemma NextBit(done: nat, rest: nat, r: nat, bit: nat, n: nat)
    requires done * (2 * r) + rest == n && bit <= 1
    ensures (2 * done + bit) * r + (rest - bit * r) == n
  {}

  /** int2bcd: the value of the bytes x, as far as the decimal buffer can hold it. */
  method Int2Bcd(x: array<Byte>, buf: array<Byte>)
    requires x != buf && x.Length > 0
    modifies x, buf
    ensures AllPacked(buf[..]) && BcdValue(buf[..]) == BinValue(old(x[..])) % Pow100(buf.Length)
  {
    hide BcdValue; hide BinValue; hide Pow100; hide AllPacked;
    ghost var all := x[..];
    ClearBuffer(buf);
    ZeroMod(Pow100(buf.Length));
    BinNone(all);
    var i, b := 0, x.Length;
    while x[i] == 0
      invariant 0 <= i < x.Length && b == x.Length - i && BinValue(all[..i]) == 0
      invariant x[..] == all && AllPacked(buf[..]) && BcdValue(buf[..]) == 0
      decreases b
    {
      BinNext(all, i);
      b := b - 1;
      i := i + 1;
      if b == 0 { assert all[..i] == all; return; }
    }
    var c := false;
    while b > 0
      invariant 0 <= i <= x.Length && b == x.Length - i && AllPacked(buf[..])
      invariant forall k :: i <= k < x.Length ==> x[k] == all[k]
      invariant BcdValue(buf[..]) == BinValue(all[..i]) % Pow100(buf.Length)
    {
      BinNext(all, i);
      c := AddByte(x, i, buf, c, BinValue(all[..i]));
      i := i + 1;
      b := b - 1;
    }
    assert all[..i] == all;
  }

  method ClearBuffer(buf: array<Byte>)
    modifies buf
    ensures AllPacked(buf[..]) && BcdValue(buf[..]) == 0
  {
    var z := 0;
    while z < buf.Length
      invariant 0 <= z <= buf.Length && forall k :: 0 <= k < z ==> buf[k] == 0
    {
      buf[z] := 0;
      z := z + 1;
    }
    ZeroValue(buf[..]);
  }

  lemma ZeroMod(p: nat)
    requires p > 0
    ensures 0 % p == 0
  {}

  lemma BinNone(s: seq<Byte>)
    ensures BinValue(s[..0]) == 0
  {}

  lemma BinNext(s: seq<Byte>, i: nat)
    requires i < |s|
    ensures BinValue(s[..i + 1]) == 0x100 * BinValue(s[..i]) + s[i]
  {
    assert s[..i + 1][..i] == s[..i];
  }

  lemma {:induction false} ZeroValue(s: seq<Byte>)
    requires forall k :: 0 <= k < |s| ==> s[k] == 0
    ensures AllPacked(s) && BcdValue(s) == 0
  {
    if s != [] { ZeroValue(s[..|s| - 1]); }
  }

  /** Byte i holds the two decimal digits of the value at its place. */
  lemma {:induction false} DigitsOf(s: seq<Byte>, i: nat)
    requires AllPacked(s) && i < |s|
    ensures (BcdValue(s) / Pow100(|s| - 1 - i)) % 100 == Tens(s[i])
    decreases |s|
  {
    hide Packed; hide Tens;
    var f := s[..|s| - 1];
    var v, t := BcdValue(f), Tens(s[|s| - 1]);
    TensBound(s[|s| - 1]);
    if i == |s| - 1 {
      LastDigit(v, t);
    } else {
      DigitsOf(f, i);
      assert f[i] == s[i];
      assert Pow100(|s| - 1 - i) == 100 * Pow100(|f| - 1 - i);
      DropDigit(v, t, Pow100(|f| - 1 - i));
    }
  }

  lemma TensBound(a: Byte)
    requires Packed(a)
    ensures Tens(a) < 100
  {}

  lemma LastDigit(v: nat, t: nat)
    requires t < 100
    ensures (100 * v + t) / Pow100(0) % 100 == t
  {
    DivUnique(100 * v + t, 100, v, t);
  }

  lemma DropDigit(v: nat, t: nat, p: nat)
    requires t < 100 && p > 0
    ensures (100 * v + t) / (100 * p) == v / p
  {
    var q, r := v / p, v % p;
    assert v == p * q + r;
    assert 100 * v + t == (100 * p) * q + (100 * r + t) by { assert (100 * p) * q == 100 * (p * q); }
    DivUnique(100 * v + t, 100 * p, q, 100 * r + t);
  }

  /** Four bytes fit into five. */
  lemma FiveBytesSuffice(x: seq<Byte>)
    requires |x| == 4
    ensures BinValue(x) % Pow100(5) == BinValue(x)
  {
    assert Pow100(3) == 100_0000;
    assert Pow100(5) == 100_0000_0000;
    assert BinValue(x) < 0x1_0000_0000 by { BinBound(x, 0x1_0000_0000); }
  }

  lemma BinBound(x: seq<Byte>, p: nat)
    requires |x| == 4 && p == 0x1_0000_0000
    ensures BinValue(x) < p
  {
    BinNext(x, 0);
    BinNext(x, 1);
    BinNext(x, 2);
    BinNext(x, 3);
    assert x[..0] == [] && x[..4] == x;
  }
}
