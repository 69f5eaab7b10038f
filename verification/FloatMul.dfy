/**
  The multiplication of the floating BASIC.  A number is five bytes: exponent, and a 32-bit
  mantissa whose leading one is replaced by the sign; five zero bytes are zero.  The two
  operands lie below index u of the number stack, scratch bytes from u on.
 */
module FloatMul {
  import opened Machine

  // ---------- numbers ----------

  function Two(s: seq<Byte>, i: nat): nat
    requires i + 2 <= |s|
  {
    0x100 * (s[i] as int) + s[i + 1]
  }

  function Three(s: seq<Byte>, i: nat): nat
    requires i + 3 <= |s|
  {
    0x1_0000 * s[i] + Two(s, i + 1)
  }

  function Four(s: seq<Byte>, i: nat): nat
    requires i + 4 <= |s|
  {
    0x100_0000 * s[i] + Three(s, i + 1)
  }

  function Five(s: seq<Byte>, i: nat): nat
    requires i + 5 <= |s|
  {
    0x1_0000_0000 * s[i] + Four(s, i + 1)
  }

  predicate Negative(s: seq<Byte>, i: nat)
    requires i + 5 <= |s|
  {
    s[i + 1] >= 0x80
  }

  /** The mantissa with its leading one. */
  function Mantissa(s: seq<Byte>, i: nat): nat
    requires i + 5 <= |s|
  {
    if Negative(s, i) then Four(s, i + 1) else Four(s, i + 1) + 0x8000_0000
  }

  predicate IsZero(s: seq<Byte>, i: nat)
    requires i + 5 <= |s|
  {
    Five(s, i) == 0
  }

  // ---------- the product ----------

  /** MUL. */
  function Mul(p: Byte, q: Byte): (r: nat)
    ensures r <= 0xfe01
  {
    Bounded(p, q);
    p * q
  }

  lemma Bounded(p: Byte, q: Byte)
    ensures 0 <= p * q <= 0xfe01
  {
    Grows(p, q, 0xff);
  }

  lemma Grows(a: nat, b: nat, c: nat)
    requires b <= c
    ensures a * b <= a * c
  {}

  /** The 40 bits that are kept of a * b: for each byte of b, its product with a less its
      low bytes. */
  function T1(a1: Byte, a2: Byte, a3: Byte, a4: Byte, b: Byte): nat {
    0x100_0000 * Mul(b, a1) + 0x1_0000 * Mul(b, a2) + 0x100 * Mul(b, a3) + Mul(b, a4)
  }

  function T2(a1: Byte, a2: Byte, a3: Byte, a4: Byte, b: Byte): nat {
    0x1_0000 * Mul(b, a1) + 0x100 * Mul(b, a2) + Mul(b, a3) + Mul(b, a4) / 0x100
  }

  function T3(a1: Byte, a2: Byte, a3: Byte, b: Byte): nat {
    0x100 * Mul(b, a1) + Mul(b, a2) + Mul(b, a3) / 0x100
  }

  function T4(a1: Byte, a2: Byte, b: Byte): nat { Mul(b, a1) + Mul(b, a2) / 0x100 }

  function Kept(s: seq<Byte>, i: nat, j: nat): nat
    requires i + 4 <= |s| && j + 4 <= |s|
  {
    T1(s[i], s[i + 1], s[i + 2], s[i + 3], s[j]) + T2(s[i], s[i + 1], s[i + 2], s[i + 3], s[j + 1])
    + T3(s[i], s[i + 1], s[i + 2], s[j + 2]) + T4(s[i], s[i + 1], s[j + 3])
  }

  lemma TermErrors(a1: Byte, a2: Byte, a3: Byte, a4: Byte, b: Byte)
    ensures var a := 0x100_0000 * a1 + 0x1_0000 * a2 + 0x100 * a3 + a4;
            && T1(a1, a2, a3, a4, b) == b * a
            && 0 <= b * a - 0x100 * T2(a1, a2, a3, a4, b) < 0x100
            && 0 <= b * a - 0x1_0000 * T3(a1, a2, a3, b) < 2 * 0x1_0000
            && 0 <= b * a - 0x100_0000 * T4(a1, a2, b) < 2 * 0x100_0000
  {
    ByColumns(a1, a2, a3, a4, b);
    hide Mul;
  }

  lemma ByColumns(a1: Byte, a2: Byte, a3: Byte, a4: Byte, b: Byte)
    ensures b * (0x100_0000 * a1 + 0x1_0000 * a2 + 0x100 * a3 + a4)
         == 0x100_0000 * Mul(b, a1) + 0x1_0000 * Mul(b, a2) + 0x100 * Mul(b, a3) + Mul(b, a4)
  {}

  /** What is kept is below the product by less than five units of its last place. */
  lemma KeptError(s: seq<Byte>, i: nat, j: nat)
    requires i + 4 <= |s| && j + 4 <= |s|
    ensures 0 <= Four(s, i) * Four(s, j) - 0x100_0000 * Kept(s, i, j) < 5 * 0x100_0000
  {
    hide T1; hide T2; hide T3; hide T4;
    var a := Four(s, i);
    TermErrors(s[i], s[i + 1], s[i + 2], s[i + 3], s[j]);
    TermErrors(s[i], s[i + 1], s[i + 2], s[i + 3], s[j + 1]);
    TermErrors(s[i], s[i + 1], s[i + 2], s[i + 3], s[j + 2]);
    TermErrors(s[i], s[i + 1], s[i + 2], s[i + 3], s[j + 3]);
    ByRows(a, s[j], s[j + 1], s[j + 2], s[j + 3]);
  }

  lemma ByRows(a: nat, b1: Byte, b2: Byte, b3: Byte, b4: Byte)
    ensures a * (0x100_0000 * b1 + 0x1_0000 * b2 + 0x100 * b3 + b4)
         == 0x100_0000 * (b1 * a) + 0x1_0000 * (b2 * a) + 0x100 * (b3 * a) + b4 * a
  {}

  /** Two normalized mantissas: the product fits in 40 bits and needs one shift at most. */
  lemma KeptRange(s: seq<Byte>, i: nat, j: nat)
    requires i + 4 <= |s| && j + 4 <= |s| && s[i] >= 0x80 && s[j] >= 0x80
    ensures 0x40_0000_0000 <= Kept(s, i, j) < 0x100_0000_0000
  {
    KeptError(s, i, j);
    BigProduct(Four(s, i), Four(s, j));
    KeptLow(s, i, j);
  }

  lemma BigProduct(a: nat, b: nat)
    requires a < 0x1_0000_0000 && b < 0x1_0000_0000
    ensures a * b < 0x1_0000_0000_0000_0000
  {
    Grows(a, b, 0xffff_ffff);
  }

  lemma KeptLow(s: seq<Byte>, i: nat, j: nat)
    requires i + 4 <= |s| && j + 4 <= |s| && s[i] >= 0x80 && s[j] >= 0x80
    ensures Kept(s, i, j) >= 0x40_0000_0000
  {
    hide Mul;
    HalfProduct(s[j], s[i]);
  }

  lemma HalfProduct(p: Byte, q: Byte)
    requires p >= 0x80 && q >= 0x80
    ensures Mul(p, q) >= 0x4000
  {
    Grows(p, 0x80, q);
  }

  // ---------- normalizing and rounding ----------

  /** Nearest multiple of $100, halves up. */
  function Nearest(q: nat): nat { q / 0x100 + if q % 0x100 >= 0x80 then 1 else 0 }

  /** Exponent and mantissa from the 40-bit product and the sum of the exponents. */
  function Normal(q: nat, e: int): (int, nat) {
    var q1 := if q < 0x80_0000_0000 then 2 * q else q;
    var e1 := if q < 0x80_0000_0000 then e else e + 1;
    if Nearest(q1) == 0x1_0000_0000 then (e1 + 1, 0x8000_0000) else (e1, Nearest(q1))
  }

  function Scale(k: int): nat { if k <= 0 then 0x8000_0000 else if k == 1 then 0x1_0000_0000 else 0x2_0000_0000 }

  /** The rounded result is normalized and within half a unit in its last place, and five
      units of the dropped part, of the exact product. */
  lemma NormalError(q: nat, e: int, product: nat)
    requires 0x40_0000_0000 <= q < 0x100_0000_0000 && 0 <= product - 0x100_0000 * q < 5 * 0x100_0000
    ensures var (x, r) := Normal(q, e);
            && 0x8000_0000 <= r < 0x1_0000_0000 && e <= x <= e + 2
            && 2 * product - Scale(x - e) - 10 * 0x100_0000 <= 2 * (r * Scale(x - e)) <= 2 * product + Scale(x - e)
  {
    var q1 := if q < 0x80_0000_0000 then 2 * q else q;
    NearestError(q1);
  }

  lemma NearestError(q: nat)
    requires 0x80_0000_0000 <= q < 0x100_0000_0000
    ensures -0x80 <= 0x100 * Nearest(q) - q <= 0x80
    ensures 0x8000_0000 <= Nearest(q) <= 0x1_0000_0000
  {}

  // ---------- the routine ----------

  /** Nothing outside lo..hi differs. */
  twostate predicate Only(f: array<Byte>, lo: int, hi: int)
    reads f
  {
    forall k :: 0 <= k < f.Length && !(lo <= k < hi) ==> f[k] == old(f[k])
  }

  /** MUL; ADDB at; ADCA #0; STD at-1. */
  method MulAdd(f: array<Byte>, at: nat, p: Byte, q: Byte)
    requires 0 < at < f.Length
    modifies f
    ensures Two(f[..], at - 1) == Mul(p, q) + old(f[at])
    ensures Only(f, at - 1, at + 1)
  {
    var d := Mul(p, q);
    var b := d % 0x100 + f[at];
    f[at] := Wrap8(b);
    f[at - 1] := d / 0x100 + if b >= 0x100 then 1 else 0;
  }

  lemma WrapOnce(n: int)
    requires 0 <= n < 0x200
    ensures Wrap8(n) == if n >= 0x100 then n - 0x100 else n
  {}

  /** Add the words at i and j and a carry into k: ADDD, or ADCB and ADCA. */
  method AddWords(f: array<Byte>, i: nat, j: nat, c0: bool, k: nat) returns (c: bool)
    requires i + 2 <= f.Length && j + 2 <= f.Length && k + 2 <= f.Length
    modifies f
    ensures Two(f[..], k) + (if c then 0x1_0000 else 0) == Two(old(f[..]), i) + Two(old(f[..]), j) + if c0 then 1 else 0
    ensures Only(f, k, k + 2)
  {
    hide Wrap8;
    var low := f[i + 1] as int + f[j + 1] + if c0 then 1 else 0;
    var high := f[i] as int + f[j] + if low >= 0x100 then 1 else 0;
    WrapOnce(low);
    WrapOnce(high);
    f[k], f[k + 1] := Wrap8(high), Wrap8(low);
    c := high >= 0x100;
  }

  /** Row of b4: two bytes at u+3. */
  method Row4(f: array<Byte>, u: nat)
    requires 10 <= u && u + 10 <= f.Length
    modifies f
    ensures Only(f, u + 3, u + 5)
    ensures Two(f[..], u + 3) == T4(f[u - 9], f[u - 8], f[u - 1])
  {
    f[u + 4] := Mul(f[u - 1], f[u - 8]) / 0x100;
    MulAdd(f, u + 4, f[u - 1], f[u - 9]);
  }

  /** Row of b3: three bytes at u+7, then added to those at u+3 into u+2. */
  method Row3(f: array<Byte>, u: nat)
    requires 10 <= u && u + 10 <= f.Length
    requires Two(f[..], u + 3) <= 0xfeff
    modifies f
    ensures Only(f, u + 2, u + 10)
    ensures Three(f[..], u + 2) == Two(old(f[..]), u + 3) + T3(f[u - 9], f[u - 8], f[u - 7], f[u - 2])
  {
    hide Mul; hide Wrap8;
    f[u + 9] := Mul(f[u - 2], f[u - 7]) / 0x100;
    MulAdd(f, u + 9, f[u - 2], f[u - 8]);
    MulAdd(f, u + 8, f[u - 2], f[u - 9]);
    assert Three(f[..], u + 7) == T3(f[u - 9], f[u - 8], f[u - 7], f[u - 2]);
    var c := AddWords(f, u + 8, u + 3, false, u + 3);
    WrapOnce(f[u + 7] + if c then 1 else 0);
    f[u + 2] := Wrap8(f[u + 7] + if c then 1 else 0);
  }

  /** Row of b2: four bytes at u+6, then added to the three at u+2 into u+1. */
  method Row2(f: array<Byte>, u: nat)
    requires 10 <= u && u + 10 <= f.Length
    requires Three(f[..], u + 2) + T2(f[u - 9], f[u - 8], f[u - 7], f[u - 6], f[u - 3]) < 0x1_0000_0000
    modifies f
    ensures Only(f, u + 1, u + 10)
    ensures Four(f[..], u + 1) == Three(old(f[..]), u + 2) + T2(f[u - 9], f[u - 8], f[u - 7], f[u - 6], f[u - 3])
  {
    hide Mul; hide Two; hide Three; hide Four; hide T2;
    Term2(f, u);
    Sum2(f, u);
  }

  method Term2(f: array<Byte>, u: nat)
    requires 10 <= u && u + 10 <= f.Length
    modifies f
    ensures Only(f, u + 6, u + 10)
    ensures Four(f[..], u + 6) == T2(f[u - 9], f[u - 8], f[u - 7], f[u - 6], f[u - 3])
    ensures Three(f[..], u + 2) == Three(old(f[..]), u + 2)
  {
    hide Mul;
    f[u + 9] := Mul(f[u - 3], f[u - 6]) / 0x100;
    MulAdd(f, u + 9, f[u - 3], f[u - 7]);
    MulAdd(f, u + 8, f[u - 3], f[u - 8]);
    MulAdd(f, u + 7, f[u - 3], f[u - 9]);
  }

  method Sum2(f: array<Byte>, u: nat)
    requires 10 <= u && u + 10 <= f.Length
    requires Three(f[..], u + 2) + Four(f[..], u + 6) < 0x1_0000_0000
    modifies f
    ensures Only(f, u + 1, u + 5)
    ensures Four(f[..], u + 1) == Three(old(f[..]), u + 2) + Four(old(f[..]), u + 6)
  {
    hide Wrap8;
    var c := AddWords(f, u + 8, u + 3, false, u + 3);
    var low := f[u + 7] as int + f[u + 2] + if c then 1 else 0;
    var high := f[u + 6] as int + if low >= 0x100 then 1 else 0;
    WrapOnce(low);
    WrapOnce(high);
    f[u + 1], f[u + 2] := Wrap8(high), Wrap8(low);
  }

  /** Row of b1: five bytes at u+5, then the sum of all to the mantissa of the result and
      the byte after it. */
  method Row1(f: array<Byte>, u: nat)
    requires 10 <= u && u + 10 <= f.Length
    requires Four(f[..], u + 1) + T1(f[u - 9], f[u - 8], f[u - 7], f[u - 6], f[u - 4]) < 0x100_0000_0000
    modifies f
    ensures forall k :: 0 <= k < f.Length && !(u - 9 <= k < u - 4) && !(u + 5 <= k < u + 10) ==> f[k] == old(f[k])
    ensures Five(f[..], u - 9) == Four(old(f[..]), u + 1) + old(T1(f[u - 9], f[u - 8], f[u - 7], f[u - 6], f[u - 4]))
  {
    hide Mul; hide Four; hide Five; hide T1;
    Term1(f, u);
    Sum1(f, u);
  }

  method Term1(f: array<Byte>, u: nat)
    requires 10 <= u && u + 10 <= f.Length
    modifies f
    ensures Only(f, u + 5, u + 10)
    ensures Five(f[..], u + 5) == T1(f[u - 9], f[u - 8], f[u - 7], f[u - 6], f[u - 4])
    ensures Four(f[..], u + 1) == Four(old(f[..]), u + 1)
  {
    hide Mul;
    var d := Mul(f[u - 4], f[u - 6]);
    f[u + 8], f[u + 9] := d / 0x100, d % 0x100;
    MulAdd(f, u + 8, f[u - 4], f[u - 7]);
    MulAdd(f, u + 7, f[u - 4], f[u - 8]);
    MulAdd(f, u + 6, f[u - 4], f[u - 9]);
  }

  method Sum1(f: array<Byte>, u: nat)
    requires 10 <= u && u + 10 <= f.Length
    requires Four(f[..], u + 1) + Five(f[..], u + 5) < 0x100_0000_0000
    modifies f
    ensures Only(f, u - 9, u - 4)
    ensures Five(f[..], u - 9) == Four(old(f[..]), u + 1) + Five(old(f[..]), u + 5)
  {
    hide Wrap8;
    var c := AddWords(f, u + 8, u + 3, false, u - 6);
    c := AddWords(f, u + 6, u + 1, c, u - 8);
    WrapOnce(f[u + 5] + if c then 1 else 0);
    f[u - 9] := Wrap8(f[u + 5] + if c then 1 else 0);
  }

  /** ASL -5 and ROL -6 .. -9: double the 40 bits of the result. */
  method ShiftLeft(f: array<Byte>, u: nat)
    requires 10 <= u <= f.Length && f[u - 9] < 0x80
    modifies f
    ensures Only(f, u - 9, u - 4)
    ensures Five(f[..], u - 9) == 2 * Five(old(f[..]), u - 9)
  {
    hide Wrap8; hide Five;
    ghost var s := f[..];
    var d5, d6, d7, d8, d9 := 2 * (f[u - 5] as int), 2 * (f[u - 6] as int), 2 * (f[u - 7] as int), 2 * (f[u - 8] as int), 2 * (f[u - 9] as int);
    var s6 := d6 + if d5 >= 0x100 then 1 else 0;
    var s7 := d7 + if s6 >= 0x100 then 1 else 0;
    var s8 := d8 + if s7 >= 0x100 then 1 else 0;
    var s9 := d9 + if s8 >= 0x100 then 1 else 0;
    WrapOnce(d5); WrapOnce(s6); WrapOnce(s7); WrapOnce(s8); WrapOnce(s9);
    f[u - 5], f[u - 6], f[u - 7], f[u - 8], f[u - 9] := Wrap8(d5), Wrap8(s6), Wrap8(s7), Wrap8(s8), Wrap8(s9);
    Doubled(s, f[..], u - 9, if d5 >= 0x100 then 1 else 0, if s6 >= 0x100 then 1 else 0, if s7 >= 0x100 then 1 else 0, if s8 >= 0x100 then 1 else 0);
  }

  lemma Doubled(s: seq<Byte>, t: seq<Byte>, i: nat, c1: int, c2: int, c3: int, c4: int)
    requires i + 5 <= |s| == |t|
    requires t[i + 4] == 2 * (s[i + 4] as int) - 0x100 * c1
    requires t[i + 3] == 2 * (s[i + 3] as int) + c1 - 0x100 * c2
    requires t[i + 2] == 2 * (s[i + 2] as int) + c2 - 0x100 * c3
    requires t[i + 1] == 2 * (s[i + 1] as int) + c3 - 0x100 * c4
    requires t[i] == 2 * (s[i] as int) + c4
    ensures Five(t, i) == 2 * Five(s, i)
  {}

  /** Add one to the mantissa, through its low word and then its high word. */
  method AddOne(f: array<Byte>, u: nat) returns (c: bool)
    requires 10 <= u <= f.Length
    modifies f
    ensures Only(f, u - 9, u - 5)
    ensures Four(f[..], u - 9) + (if c then 0x1_0000_0000 else 0) == Four(old(f[..]), u - 9) + 1
  {
    hide Wrap;
    var d := Two(f[..], u - 7) + 1;
    WordBytes(d);
    f[u - 7], f[u - 6] := Wrap(d) / 0x100, Wrap(d) % 0x100;
    c := d >= 0x1_0000;
    if c {
      var e := Two(f[..], u - 9) + 1;
      WordBytes(e);
      f[u - 9], f[u - 8] := Wrap(e) / 0x100, Wrap(e) % 0x100;
      c := e >= 0x1_0000;
    }
  }

  lemma WordBytes(d: int)
    requires 0 <= d <= 0x1_0000
    ensures Wrap(d) == (if d == 0x1_0000 then 0 else d)
    ensures 0x100 * (Wrap(d) / 0x100) + Wrap(d) % 0x100 == Wrap(d)
  {}

  /** From the 40-bit product to normalized mantissa and exponent; false on overflow.  The
      mantissa is left with its leading one still to be replaced, or as zero for exactly
      one half of its range. */
  method Normalize(f: array<Byte>, u: nat) returns (ok: bool)
    requires 10 <= u <= f.Length && 0x40_0000_0000 <= Five(f[..], u - 9)
    modifies f
    ensures Only(f, u - 10, u - 4)
    ensures var (x, r) := Normal(Five(old(f[..]), u - 9), old(f[u - 10]));
            (ok <==> x <= 0xff) && (ok ==> f[u - 10] == x && Four(f[..], u - 9) % 0x8000_0000 == r % 0x8000_0000)
  {
    hide Normal;
    ghost var q, e := Five(f[..], u - 9), f[u - 10];
    NormalCases(q, e);
    if f[u - 9] < 0x80 {
      ShiftLeft(f, u);
    } else {
      if f[u - 10] == 0xff { return false; }
      f[u - 10] := f[u - 10] + 1;
    }
    ok := Round(f, u);
  }

  /** Normal by cases, without its name. */
  lemma NormalCases(q: nat, e: int)
    ensures var q1 := if q < 0x80_0000_0000 then 2 * q else q;
            var e1 := if q < 0x80_0000_0000 then e else e + 1;
            Normal(q, e) == if Nearest(q1) == 0x1_0000_0000 then (e1 + 1, 0x8000_0000) else (e1, Nearest(q1))
    ensures q >= 0x80_0000_0000 ==> Normal(q, e).0 > e
  {}

  /** Rounding on the fifth byte; when it carries out of the mantissa the exponent grows. */
  method Round(f: array<Byte>, u: nat) returns (ok: bool)
    requires 10 <= u <= f.Length && f[u - 9] >= 0x80
    modifies f
    ensures Only(f, u - 10, u - 4)
    ensures var n := Nearest(Five(old(f[..]), u - 9));
            if n == 0x1_0000_0000 then
              (ok <==> old(f[u - 10]) < 0xff) && (ok ==> f[u - 10] == old(f[u - 10]) + 1 && Four(f[..], u - 9) == 0)
            else ok && f[u - 10] == old(f[u - 10]) && Four(f[..], u - 9) == n
  {
    FiveFour(f[..], u - 9);
    if f[u - 5] >= 0x80 {
      var c := AddOne(f, u);
      if c {
        f[u - 5] := 0;
        if f[u - 10] == 0xff { return false; }
        f[u - 10] := f[u - 10] + 1;
      }
    }
    return true;
  }

  lemma FiveFour(s: seq<Byte>, i: nat)
    requires i + 5 <= |s|
    ensures Five(s, i) == 0x100 * Four(s, i) + s[i + 4]
    ensures Nearest(Five(s, i)) == Four(s, i) + if s[i + 4] >= 0x80 then 1 else 0
  {
    hide Four;
    assert Five(s, i) == 0x100 * Four(s, i) + s[i + 4] by { FiveBytes(s, i); }
    NearestIs(Four(s, i), s[i + 4]);
  }

  lemma FiveBytes(s: seq<Byte>, i: nat)
    requires i + 5 <= |s|
    ensures Five(s, i) == 0x100 * Four(s, i) + s[i + 4]
  {}

  lemma NearestIs(m: nat, b: Byte)
    ensures Nearest(0x100 * m + b) == m + if b >= 0x80 then 1 else 0
  {}

  // ---------- the whole routine ----------

  /** ORB #$80. */
  function One(b: Byte): Byte { if b >= 0x80 then b else b + 0x80 }

  /** The mantissas of both operands with their leading ones, as fpmul sets them. */
  function Significands(s: seq<Byte>, u: nat): seq<Byte>
    requires 10 <= u <= |s|
  {
    [One(s[u - 9]), s[u - 8], s[u - 7], s[u - 6], One(s[u - 4]), s[u - 3], s[u - 2], s[u - 1]]
  }

  /** The 40 bits of the product. */
  function Product40(s: seq<Byte>, u: nat): nat
    requires 10 <= u <= |s|
  {
    Kept(Significands(s, u), 0, 4)
  }

  lemma SignificandsAre(s: seq<Byte>, u: nat)
    requires 10 <= u <= |s|
    ensures var m := Significands(s, u);
            Four(m, 0) == Mantissa(s, u - 10) && Four(m, 4) == Mantissa(s, u - 5) && m[0] >= 0x80 && m[4] >= 0x80
  {}

  /** The sum of the exponents, without their bias of $80. */
  function ExponentSum(s: seq<Byte>, u: nat): int
    requires 10 <= u <= |s|
  {
    s[u - 10] as int + s[u - 5] - 0x80
  }

  /** SUBA #$80 twice, ADDA with its overflow flag, ADDA #$80. */
  lemma Exponents(x: Byte, y: Byte)
    ensures var a, b := Wrap8(y - 0x80), Wrap8(x - 0x80);
            var r := Wrap8(a + b);
            var v := Status8(a, b, r, a + b >= 0x100).v;
            var e := x as int + y - 0x80;
            && (v <==> e < 0 || e > 0xff) && (v ==> (r >= 0x80 <==> e > 0xff))
            && (!v ==> Wrap8(r + 0x80) == e)
  {
    hide Wrap8;
    Unbias(x);
    Unbias(y);
    var a, b := Wrap8(y - 0x80), Wrap8(x - 0x80);
    WrapOnce(a as int + b);
    WrapOnce(Wrap8(a as int + b) as int + 0x80);
  }

  lemma Unbias(x: Byte)
    ensures Wrap8(x - 0x80) == if x >= 0x80 then x - 0x80 else x + 0x80
  {}

  /** The mantissas' part of fpmul: both leading ones set, exponent in place. */
  method Products(f: array<Byte>, u: nat)
    requires 10 <= u && u + 10 <= f.Length && f[u - 9] >= 0x80 && f[u - 4] >= 0x80
    modifies f
    ensures forall k :: 0 <= k < f.Length && !(u - 9 <= k < u - 4) && !(u <= k < u + 10) ==> f[k] == old(f[k])
    ensures Five(f[..], u - 9) == old(Product40(f[..], u))
  {
    hide T1; hide T2; hide T3; hide T4; hide Two; hide Three; hide Four; hide Five;
    ghost var s := f[..];
    RowsFit(s, u);
    Row4(f, u);
    Row3(f, u);
    Row2(f, u);
    Row1(f, u);
  }

  /** No row's sum overflows its bytes. */
  lemma RowsFit(s: seq<Byte>, u: nat)
    requires 10 <= u <= |s| && s[u - 9] >= 0x80 && s[u - 4] >= 0x80
    ensures var t4 := T4(s[u - 9], s[u - 8], s[u - 1]);
            var t3 := T3(s[u - 9], s[u - 8], s[u - 7], s[u - 2]);
            var t2 := T2(s[u - 9], s[u - 8], s[u - 7], s[u - 6], s[u - 3]);
            var t1 := T1(s[u - 9], s[u - 8], s[u - 7], s[u - 6], s[u - 4]);
            && t4 <= 0xfeff && t4 + t3 + t2 < 0x1_0000_0000 && t4 + t3 + t2 + t1 == Product40(s, u) < 0x100_0000_0000
  {
    var m := Significands(s, u);
    assert One(s[u - 9]) == s[u - 9] && One(s[u - 4]) == s[u - 4];
    KeptRange(m, 0, 4);
    hide Mul;
  }

  /** The two tests for zero: the five bytes of an operand. */
  method TestZero(f: array<Byte>, i: nat) returns (z: bool)
    requires i + 5 <= f.Length
    ensures z <==> IsZero(f[..], i)
  {
    z := f[i] == 0 && f[i + 1] == 0 && f[i + 2] == 0 && f[i + 3] == 0 && f[i + 4] == 0;
  }

  method Underflow(f: array<Byte>, u: nat)
    requires 10 <= u <= f.Length
    modifies f
    ensures Only(f, u - 10, u - 5) && IsZero(f[..], u - 10)
  {
    f[u - 10], f[u - 9], f[u - 8], f[u - 7], f[u - 6] := 0, 0, 0, 0, 0;
  }

  /** fpadd3: the sign in place of the leading one. */
  method SetSign(f: array<Byte>, u: nat, negative: bool)
    requires 10 <= u <= f.Length
    modifies f
    ensures Only(f, u - 9, u - 8)
    ensures Negative(f[..], u - 10) == negative
    ensures Mantissa(f[..], u - 10) == Four(old(f[..]), u - 9) % 0x8000_0000 + 0x8000_0000
  {
    FourTop(f[..], u - 9);
    f[u - 9] := f[u - 9] % 0x80 + if negative then 0x80 else 0;
    FourTop(f[..], u - 9);
  }

  lemma FourTop(s: seq<Byte>, i: nat)
    requires i + 4 <= |s|
    ensures Four(s, i) % 0x8000_0000 == 0x100_0000 * (s[i] % 0x80) + Three(s, i + 1)
    ensures Four(s, i) == 0x100_0000 * (s[i] % 0x80) + Three(s, i + 1) + if s[i] >= 0x80 then 0x8000_0000 else 0
  {
    assert 0 <= Three(s, i + 1) < 0x100_0000;
  }

  /** The exponent of the result, unless the sum overflows a signed byte (v), upwards or not. */
  method AddExponents(f: array<Byte>, u: nat) returns (v: bool, up: bool)
    requires 10 <= u <= f.Length
    modifies f
    ensures Only(f, u - 10, u - 9)
    ensures var e := old(ExponentSum(f[..], u));
            (v <==> e < 0 || e > 0xff) && (v ==> (up <==> e > 0xff)) && (!v ==> f[u - 10] == e)
  {
    hide Wrap8; hide Status8;
    var a, b := Wrap8(f[u - 5] as int - 0x80), Wrap8(f[u - 10] as int - 0x80);
    var r := Wrap8(a as int + b);
    Exponents(f[u - 10], f[u - 5]);
    v, up := Status8(a, b, r, a as int + b >= 0x100).v, r >= 0x80;
    if !v { f[u - 10] := Wrap8(r as int + 0x80); }
  }

  /** fpmul: false when it stops with an overflow. */
  method Fpmul(f: array<Byte>, u: nat) returns (ok: bool)
    requires 10 <= u && u + 10 <= f.Length
    modifies f
    ensures forall k :: 0 <= k < f.Length && !(u - 10 <= k < u + 10) ==> f[k] == old(f[k])
    ensures old(IsZero(f[..], u - 10) || IsZero(f[..], u - 5)) ==> ok && IsZero(f[..], u - 10)
    ensures old(!IsZero(f[..], u - 10) && !IsZero(f[..], u - 5)) ==>
              var e := old(ExponentSum(f[..], u));
              var (x, r) := Normal(old(Product40(f[..], u)), e);
              && (e < 0 ==> ok && IsZero(f[..], u - 10))
              && (e >= 0 ==> (ok <==> x <= 0xff))
              && (e >= 0 && ok ==> f[u - 10] == x && Mantissa(f[..], u - 10) == r)
              && (e >= 0 && ok ==> Negative(f[..], u - 10) == old(Negative(f[..], u - 10) != Negative(f[..], u - 5)))
    ensures Multiplied(old(f[..]), f[..], u, ok)
  {
    hide IsZero; hide Four; hide Five; hide Mantissa; hide Normal; hide Product40; hide Multiplied;
    ghost var s := f[..];
    ghost var q := Product40(s, u);
    ProductRange(s, u);
    NormalUp(q, ExponentSum(s, u));
    var negative := (f[u - 9] >= 0x80) != (f[u - 4] >= 0x80);
    var zero := TestZero(f, u - 5);
    if !zero { zero := TestZero(f, u - 10); }
    if zero { Underflow(f, u); ProductValue(s, f[..], u, true); return true; }
    f[u - 9] := One(f[u - 9]);
    f[u - 4] := One(f[u - 4]);
    SameProduct(s, f[..], u);
    var v, up := AddExponents(f, u);
    if v {
      if !up { Underflow(f, u); }
      ProductValue(s, f[..], u, !up);
      return !up;
    }
    SameProduct(s, f[..], u);
    Products(f, u);
    ok := Normalize(f, u);
    if ok { SetSign(f, u, negative); }
    ProductValue(s, f[..], u, ok);
  }

  lemma NormalUp(q: nat, e: int)
    requires 0x40_0000_0000 <= q < 0x100_0000_0000
    ensures Normal(q, e).0 >= e && 0x8000_0000 <= Normal(q, e).1 < 0x1_0000_0000
  {
    NearestError(if q < 0x80_0000_0000 then 2 * q else q);
  }

  lemma SameProduct(s: seq<Byte>, t: seq<Byte>, u: nat)
    requires 10 <= u <= |s| == |t|
    requires forall k :: u - 8 <= k < u - 5 || u - 3 <= k < u ==> t[k] == s[k]
    requires t[u - 9] == One(s[u - 9]) && t[u - 4] == One(s[u - 4])
    ensures Product40(t, u) == Product40(s, u)
  {
    assert Significands(t, u) == Significands(s, u);
  }

  lemma ProductRange(s: seq<Byte>, u: nat)
    requires 10 <= u <= |s|
    ensures 0x40_0000_0000 <= Product40(s, u) < 0x100_0000_0000
  {
    SignificandsAre(s, u);
    KeptRange(Significands(s, u), 0, 4);
  }

  /** The result that fpmul stores is the exact product of the operands' values, off by no
      more than half a unit in its last place and five units of the 40-bit product. */
  lemma FpmulError(s: seq<Byte>, u: nat)
    requires 10 <= u <= |s|
    ensures var e := ExponentSum(s, u);
            var (x, r) := Normal(Product40(s, u), e);
            var product := Mantissa(s, u - 10) * Mantissa(s, u - 5);
            && 0x8000_0000 <= r < 0x1_0000_0000 && e <= x <= e + 2
            && 2 * product - Scale(x - e) - 10 * 0x100_0000 <= 2 * (r * Scale(x - e)) <= 2 * product + Scale(x - e)
  {
    hide Normal; hide Kept; hide Mantissa;
    SignificandsAre(s, u);
    KeptRange(Significands(s, u), 0, 4);
    KeptError(Significands(s, u), 0, 4);
    NormalError(Product40(s, u), ExponentSum(s, u), Mantissa(s, u - 10) * Mantissa(s, u - 5));
  }

  /** In particular the error is below one unit in the last place. */
  lemma WithinOneUlp(s: seq<Byte>, u: nat)
    requires 10 <= u <= |s|
    ensures var e := ExponentSum(s, u);
            var (x, r) := Normal(Product40(s, u), e);
            var product := Mantissa(s, u - 10) * Mantissa(s, u - 5);
            product - Scale(x - e) < r * Scale(x - e) < product + Scale(x - e)
  {
    hide Normal; hide Product40; hide Mantissa;
    FpmulError(s, u);
  }

  // ---------- values ----------

  /** Two to the k. */
  function Power(k: int): (p: real)
    ensures p > 0.0
  {
    if k >= 0 then Pow2(k) as real else 1.0 / Pow2(-k) as real
  }

  /** A number that is not zero: the mantissa is a fraction from 1 up to 2, $80 the exponent 0. */
  function Value(s: seq<Byte>, i: nat): real
    requires i + 5 <= |s|
  {
    (if Negative(s, i) then -1.0 else 1.0) * (Mantissa(s, i) as real * Power(s[i] as int - 0x80 - 31))
  }

  function Abs(x: real): real { if x < 0.0 then -x else x }

  /** What multiplying the numbers below u of s leaves in t, in terms of their values.  `ok` is false
      for an overflow. */
  ghost predicate Multiplied(s: seq<Byte>, t: seq<Byte>, u: nat, ok: bool)
    requires 10 <= u <= |s| == |t|
  {
    hide Power; hide Value;
    var p := Value(s, u - 10) * Value(s, u - 5);
    if IsZero(s, u - 10) || IsZero(s, u - 5) then ok && IsZero(t, u - 10)
    else if s[u - 10] as int + s[u - 5] < 0x80 then ok && IsZero(t, u - 10) && Abs(p) < Power(-0x7f)
    else
      && Abs(p) >= Power(-0x80)
      && (ok ==> Abs(p) < Power(0x80) && Abs(Value(t, u - 10) - p) < Power(t[u - 10] as int - 0x80 - 31))
      && (!ok ==> Abs(p) >= Power(0x80) - Power(0x60))
  }

  lemma PowerStep(k: int)
    ensures Power(k + 1) == 2.0 * Power(k)
  {
    if k < 0 {
      var p := Pow2(-k - 1) as real;
      assert Pow2(-k) == 2 * Pow2(-k - 1);
      Halved(p);
    }
  }

  lemma Halved(p: real)
    requires p > 0.0
    ensures 1.0 / p == 2.0 * (1.0 / (2.0 * p))
  {}

  lemma {:induction false} PowerSum(a: int, b: int)
    ensures Power(a + b) == Power(a) * Power(b)
    decreases if b < 0 then -b else b
  {
    hide Power;
    if b == 0 {
      assert Power(0) == 1.0 by { PowerZero(); }
    } else if b > 0 {
      PowerSum(a, b - 1);
      PowerStep(a + b - 1);
      PowerStep(b - 1);
      Regroup(2.0, Power(a), Power(b - 1));
    } else {
      PowerSum(a, b + 1);
      PowerStep(a + b);
      PowerStep(b);
      Regroup(2.0, Power(a), Power(b));
    }
  }

  lemma PowerZero()
    ensures Power(0) == 1.0
  {}

  lemma Regroup(x: real, y: real, z: real)
    ensures x * (y * z) == y * (x * z) && (x * y) * z == x * (y * z)
  {}

  lemma {:induction false} PowerGrows(a: int, b: int)
    requires a <= b
    ensures Power(a) <= Power(b)
    decreases b - a
  {
    hide Power;
    if a < b {
      PowerStep(a);
      PowerGrows(a + 1, b);
    }
  }

  /** The mantissas' scale in NormalError as a power of two. */
  lemma ScaleIs(k: int)
    requires 0 <= k <= 2
    ensures Scale(k) as real == Power(31 + k)
  {
    PowerStep(31);
    PowerStep(32);
    assert Pow2(8) == 0x100;
    assert Pow2(16) == 0x1_0000;
    assert Pow2(24) == 0x100_0000;
    assert Pow2(31) == 0x8000_0000;
  }

  /** Products of mantissas against products of values. */
  lemma Together(a: int, b: int, ma: real, mb: real, x: int, r: real, c: real, t: real, p: real, v: real, ulp: real)
    requires 0 <= x - (a + b - 0x80) <= 2 && c == Scale(x - (a + b - 0x80)) as real && t == Power(a + b - 0x100 - 62)
    requires p == (ma * mb) * t && v == (r * c) * t && ulp == c * t
    ensures p == (ma * Power(a - 0x80 - 31)) * (mb * Power(b - 0x80 - 31))
    ensures ulp == Power(x - 0x80 - 31) && v == r * Power(x - 0x80 - 31)
  {
    hide Power; hide Scale;
    var e := a + b - 0x80;
    PowerSum(a - 0x80 - 31, b - 0x80 - 31);
    ScaleIs(x - e);
    PowerSum(31 + (x - e), a + b - 0x100 - 62);
    Cross(ma, Power(a - 0x80 - 31), mb, Power(b - 0x80 - 31));
    Grouped(r, c, t, Power(x - 0x80 - 31), v);
  }

  lemma Grouped(x: real, y: real, z: real, u: real, v: real)
    requires u == y * z && v == (x * y) * z
    ensures v == x * u
  {}

  lemma Cross(a: real, p: real, b: real, q: real)
    ensures (a * p) * (b * q) == (a * b) * (p * q)
  {}

  /** An inequality between integers, scaled. */
  lemma Scaled(x: int, y: int, t: real)
    requires t > 0.0
    ensures x <= y ==> (x as real) * t <= (y as real) * t
    ensures x < y ==> (x as real) * t < (y as real) * t
  {}

  /** The product's error and range, for magnitudes. */
  lemma ProductError(s: seq<Byte>, u: nat)
    requires 10 <= u <= |s|
    ensures var e := ExponentSum(s, u);
            var (x, r) := Normal(Product40(s, u), e);
            var p := (Mantissa(s, u - 10) as real * Power(s[u - 10] as int - 0x80 - 31)) * (Mantissa(s, u - 5) as real * Power(s[u - 5] as int - 0x80 - 31));
            var ulp := Power(x - 0x80 - 31);
            && 0x8000_0000 <= r < 0x1_0000_0000 && e <= x <= e + 2
            && p - ulp < r as real * ulp < p + ulp && 2.0 * (r as real * ulp) <= 2.0 * p + ulp
            && Power(e - 0x80) <= p < Power(e - 0x80 + 2)
  {
    hide Normal; hide Product40; hide Mantissa; hide Power; hide Scale;
    var e := ExponentSum(s, u);
    var (x, r) := Normal(Product40(s, u), e);
    FpmulError(s, u);
    WithinOneUlp(s, u);
    MantissaRange(s, u - 10);
    MantissaRange(s, u - 5);
    ErrorOf(Mantissa(s, u - 10), Mantissa(s, u - 5), s[u - 10], s[u - 5], x, r);
  }

  /** The same for any mantissas, exponents and results. */
  lemma ErrorOf(ma: nat, mb: nat, a: int, b: int, x: int, r: nat)
    requires 0x8000_0000 <= ma < 0x1_0000_0000 && 0x8000_0000 <= mb < 0x1_0000_0000
    requires 0 <= x - (a + b - 0x80) <= 2
    requires var c := Scale(x - (a + b - 0x80));
             ma * mb - c < r * c < ma * mb + c && 2 * (r * c) <= 2 * (ma * mb) + c
    ensures var e := a + b - 0x80;
            var p := (ma as real * Power(a - 0x80 - 31)) * (mb as real * Power(b - 0x80 - 31));
            var ulp := Power(x - 0x80 - 31);
            && p - ulp < r as real * ulp < p + ulp && 2.0 * (r as real * ulp) <= 2.0 * p + ulp
            && Power(e - 0x80) <= p < Power(e - 0x80 + 2)
  {
    hide Power; hide Scale;
    var e := a + b - 0x80;
    var p, v, ulp := ErrorScaled(ma, mb, r, Scale(x - e), Power(a + b - 0x100 - 62));
    Together(a, b, ma as real, mb as real, x, r as real, Scale(x - e) as real, Power(a + b - 0x100 - 62), p, v, ulp);
    ProductSize(ma, mb);
    ProductBounds(ma * mb, e - 0x80);
  }

  lemma MantissaRange(s: seq<Byte>, i: nat)
    requires i + 5 <= |s|
    ensures 0x8000_0000 <= Mantissa(s, i) < 0x1_0000_0000
  {}

  function Times(n: int, t: real): real { n as real * t }

  lemma TimesGrows(x: int, y: int, t: real)
    requires t > 0.0
    ensures x <= y ==> Times(x, t) <= Times(y, t)
    ensures x < y ==> Times(x, t) < Times(y, t)
  {
    Scaled(x, y, t);
  }

  lemma TimesSum(x: int, c: int, t: real)
    ensures Times(x - c, t) == Times(x, t) - Times(c, t) && Times(x + c, t) == Times(x, t) + Times(c, t)
  {}

  lemma TimesProduct(a: nat, b: nat, t: real)
    ensures Times(a * b, t) == (a as real * b as real) * t
  {
    RealProduct(a, b);
  }

  lemma ErrorScaled(ma: nat, mb: nat, r: nat, c: nat, t: real) returns (p: real, v: real, ulp: real)
    requires t > 0.0
    requires ma * mb - c < r * c < ma * mb + c && 2 * (r * c) <= 2 * (ma * mb) + c
    ensures p == Times(ma * mb, t) && p == (ma as real * mb as real) * t && v == (r as real * c as real) * t && ulp == Times(c, t)
    ensures p - ulp < v < p + ulp && 2.0 * v <= 2.0 * p + ulp
  {
    hide Times;
    var x, y := ma * mb, r * c;
    TimesProduct(ma, mb, t);
    TimesProduct(r, c, t);
    p, v, ulp := Times(x, t), Times(y, t), Times(c, t);
    TimesGrows(x - c, y, t);
    TimesGrows(y, x + c, t);
    TimesGrows(y + y, (x + x) + c, t);
    TimesSum(x, c, t);
    TimesSum(x, x, t);
    TimesSum(y, y, t);
    TimesSum(x + x, c, t);
  }

  lemma ProductBounds(m: nat, k: int)
    requires 0x4000_0000_0000_0000 <= m < 0x1_0000_0000_0000_0000
    ensures Power(k) <= Times(m, Power(k - 62)) < Power(k + 2)
  {
    hide Power; hide Times;
    var low, high := SixtyTwo(k);
    TimesGrows(low, m, Power(k - 62));
    TimesGrows(m, high, Power(k - 62));
  }

  lemma ProductSize(a: nat, b: nat)
    requires 0x8000_0000 <= a < 0x1_0000_0000 && 0x8000_0000 <= b < 0x1_0000_0000
    ensures 0x4000_0000_0000_0000 <= a * b < 0x1_0000_0000_0000_0000
  {
    Grows(0x8000_0000, 0x8000_0000, a);
    Grows(a, 0x8000_0000, b);
    BigProduct(a, b);
  }

  lemma RealProduct(a: nat, b: nat)
    ensures (a * b) as real == a as real * b as real
  {}

  lemma SixtyTwo(k: int) returns (low: nat, high: nat)
    ensures low == 0x4000_0000_0000_0000 && high == 0x1_0000_0000_0000_0000
    ensures Power(k) == Times(low, Power(k - 62)) && Power(k + 2) == Times(high, Power(k - 62))
  {
    hide Power;
    low := ScaleSquared();
    high := 4 * low;
    PowerSum(62, k - 62);
    PowerStep(k);
    PowerStep(k + 1);
    FourTimes(low, Power(k - 62));
  }

  lemma FourTimes(n: int, t: real)
    ensures Times(4 * n, t) == 2.0 * (2.0 * Times(n, t))
  {}

  lemma ScaleSquared() returns (low: nat)
    ensures low == 0x4000_0000_0000_0000 && Power(62) == low as real
  {
    hide Power;
    low := 0x8000_0000 * 0x8000_0000;
    PowerSum(31, 31);
    ScaleIs(0);
  }

  /** What fpmul leaves, in terms of values. */
  lemma ProductValue(s: seq<Byte>, t: seq<Byte>, u: nat, ok: bool)
    requires 10 <= u <= |s| == |t|
    requires IsZero(s, u - 10) || IsZero(s, u - 5) ==> ok && IsZero(t, u - 10)
    requires !IsZero(s, u - 10) && !IsZero(s, u - 5) ==>
               var e := ExponentSum(s, u);
               var (x, r) := Normal(Product40(s, u), e);
               && (e < 0 ==> ok && IsZero(t, u - 10))
               && (e >= 0 ==> (ok <==> x <= 0xff))
               && (e >= 0 && ok ==> t[u - 10] == x && Mantissa(t, u - 10) == r)
               && (e >= 0 && ok ==> Negative(t, u - 10) == (Negative(s, u - 10) != Negative(s, u - 5)))
    ensures Multiplied(s, t, u, ok)
  {
    hide IsZero; hide Normal; hide Product40; hide Mantissa; hide Power; hide Negative; hide Value; hide Abs;
    if !IsZero(s, u - 10) && !IsZero(s, u - 5) {
      var e := ExponentSum(s, u);
      var (x, r) := Normal(Product40(s, u), e);
      ProductError(s, u);
      var p := (Mantissa(s, u - 10) as real * Power(s[u - 10] as int - 0x80 - 31)) * (Mantissa(s, u - 5) as real * Power(s[u - 5] as int - 0x80 - 31));
      var v := SignedProduct(s, u);
      assert Abs(v) == p;
      if e < 0 {
        PowerGrows(e - 0x80 + 2, -0x7f);
      } else {
        PowerGrows(-0x80, e - 0x80);
        if ok {
          Below(r, x, p);
          SignedError(t, u - 10, x, p, v);
        } else {
          Above(r, x, p);
        }
      }
    }
  }

  lemma SignedProduct(s: seq<Byte>, u: nat) returns (v: real)
    requires 10 <= u <= |s|
    ensures var p := (Mantissa(s, u - 10) as real * Power(s[u - 10] as int - 0x80 - 31)) * (Mantissa(s, u - 5) as real * Power(s[u - 5] as int - 0x80 - 31));
            && v == Value(s, u - 10) * Value(s, u - 5) && Abs(v) == p
            && v == if Negative(s, u - 10) != Negative(s, u - 5) then -p else p
  {
    hide Mantissa; hide Power; hide Negative;
    v := Value(s, u - 10) * Value(s, u - 5);
    Signs(Negative(s, u - 10), Negative(s, u - 5), Mantissa(s, u - 10) as real * Power(s[u - 10] as int - 0x80 - 31), Mantissa(s, u - 5) as real * Power(s[u - 5] as int - 0x80 - 31));
  }

  lemma Signs(n1: bool, n2: bool, p: real, q: real)
    requires p >= 0.0 && q >= 0.0
    ensures ((if n1 then -1.0 else 1.0) * p) * ((if n2 then -1.0 else 1.0) * q) == (if n1 != n2 then -(p * q) else p * q)
    ensures p * q >= 0.0
  {}

  lemma SignedError(t: seq<Byte>, i: nat, x: int, p: real, v: real)
    requires i + 5 <= |t| && t[i] == x && v == if Negative(t, i) then -p else p
    requires var ulp := Power(x - 0x80 - 31); p - ulp < Mantissa(t, i) as real * ulp < p + ulp
    ensures Abs(Value(t, i) - v) < Power(x - 0x80 - 31)
  {
    hide Mantissa; hide Power; hide Negative;
  }

  /** A result below the end of the range. */
  lemma Below(r: nat, x: int, p: real)
    requires r < 0x1_0000_0000 && x <= 0xff && p < r as real * Power(x - 0x80 - 31) + Power(x - 0x80 - 31)
    ensures p < Power(0x80)
  {
    hide Power;
    var ulp := Power(x - 0x80 - 31);
    Scaled(r + 1, 0x1_0000_0000, ulp);
    ScaleIs(1);
    PowerSum(32, x - 0x80 - 31);
    PowerGrows(x - 0x80 + 1, 0x80);
  }

  /** A result past it. */
  lemma Above(r: nat, x: int, p: real)
    requires r >= 0x8000_0000 && x > 0xff && 2.0 * (r as real * Power(x - 0x80 - 31)) <= 2.0 * p + Power(x - 0x80 - 31)
    ensures p >= Power(0x80) - Power(0x60)
  {
    hide Power;
    var ulp := Power(x - 0x80 - 31);
    Scaled(0x8000_0000, r, ulp);
    PowerGrows(0x61, x - 0x80 - 31);
    PowerStep(0x60);
    ScaleIs(0);
    PowerSum(31, 0x61);
    LeastAbove(ulp, Power(0x61), p);
  }

  lemma LeastAbove(ulp: real, least: real, p: real)
    requires ulp >= least && 2.0 * (0x8000_0000 as real * ulp) <= 2.0 * p + ulp
    ensures 0x8000_0000 as real * least - least / 2.0 <= p
  {}

  /** A stored result with exponent zero reads as zero exactly when it is the power of two at
      the bottom of the range with a positive sign. */
  lemma ReadsAsZero(s: seq<Byte>, i: nat)
    requires i + 5 <= |s|
    ensures IsZero(s, i) <==> s[i] == 0 && Mantissa(s, i) == 0x8000_0000 && !Negative(s, i)
  {}
}
