/**
  The arithmetic routines _00001 .. _00009 that compiled code calls.  Each takes D and X,
  returns the result in D and gives back S, U and Y; what it pushes stays below S.  Flags
  after a call are not modelled: no compiled code looks at them.
 */
module Runtime {
  import opened Machine
  import opened Arith

  /** Bytes below S that a call may overwrite: two for the return address of LBSR and at
      most seven more (sign byte, inner return address, the operands of a division). */
  const LIBROOM := 9

  // ---------- what the routines are for ----------

  /** C division: quotient toward zero. */
  function Quotient(a: int, b: int): int
    requires b != 0
  {
    var q := (if a < 0 then -a else a) / (if b < 0 then -b else b);
    if (a < 0) == (b < 0) then q else -q
  }

  /** C remainder: sign of the dividend. */
  function Remainder(a: int, b: int): int
    requires b != 0
  {
    var r := (if a < 0 then -a else a) % (if b < 0 then -b else b);
    if a < 0 then -r else r
  }

  function UDivide(a: Word, b: Word): Word { if b == 0 then 0xffff else a / b }

  function UModulo(a: Word, b: Word): Word { if b == 0 then a else a % b }

  function ShiftLeft(a: Word, n: nat): Word { Wrap(a * Pow2(n)) }

  function ShiftRight(a: Word, n: nat): Word {
    Floor(a, Pow2(n));
    a / Pow2(n)
  }

  function ShiftArith(a: Word, n: nat): Word { Wrap(Signed(a) / Pow2(n)) }

  lemma Floor(a: int, p: int)
    requires 0 <= a && p >= 1
    ensures 0 <= a / p <= a
  {
    var q := a / p;
    assert a == p * q + a % p;
    MulAtLeast(p, q);
  }

  /** The value of each routine; a shift by a negative count shifts the other way. */
  function LibValue(op: LibOp, d: Word, x: Word): Word {
    match op
    case LMul => Wrap(d * x)
    case LUDiv => UDivide(d, x)
    case LUMod => UModulo(d, x)
    case LDiv =>
      if x == 0 then (if Signed(d) < 0 then 1 else 0xffff) else Wrap(Quotient(Signed(d), Signed(x)))
    case LMod => if x == 0 then d else Wrap(Remainder(Signed(d), Signed(x)))
    case LShl => if Signed(x) >= 0 then ShiftLeft(d, x) else ShiftArith(d, -Signed(x))
    case LUShl => if Signed(x) >= 0 then ShiftLeft(d, x) else ShiftRight(d, -Signed(x))
    case LShr => if Signed(x) >= 0 then ShiftArith(d, x) else ShiftLeft(d, -Signed(x))
    case LUShr => if Signed(x) >= 0 then ShiftRight(d, x) else ShiftLeft(d, -Signed(x))
  }

  // ---------- the routines ----------

  /** LBSR and RTS: which return address is pushed makes no difference. */
  const RETURNADDRESS: Word := 0

  function Call(st: Cpu): Cpu { Push(st, RETURNADDRESS) }

  function MulBytes(p: Byte, q: Byte): (r: Word)
    ensures r == p * q
  {
    assert p * q <= 0xff * 0xff;
    p * q
  }

  /** _00001: three byte products; the operands are pushed and the place of Y is reused. */
  function Multiply(st: Cpu): Cpu {
    MultiplyBody(Push(Push(Push(Call(st), st.y), st.x), st.d))
  }

  function MultiplyBody(f: Cpu): Cpu {
    var m := f.mem;
    var m1 := m[Wrap(f.s + 4) := MulBytes(m[f.s], m[Wrap(f.s + 3)]) % 0x100];
    var m2 := m1[Wrap(f.s + 5) := MulBytes(m1[Wrap(f.s + 1)], m1[Wrap(f.s + 2)]) % 0x100];
    var p := MulBytes(m2[Wrap(f.s + 1)], m2[Wrap(f.s + 3)]);
    var hi := Wrap8(Wrap8(p / 0x100 + m2[Wrap(f.s + 4)]) + m2[Wrap(f.s + 5)]);
    Pop(f.(s := Wrap(f.s + 6), mem := m2, d := Join(hi, p % 0x100)))
  }

  function Rol(b: Byte, c: bool): (Byte, bool) {
    (Wrap8(2 * b + if c then 1 else 0), b >= 0x80)
  }

  /** One round of the division loop on the partial remainder d and the word q that holds
      dividend bits above and complemented quotient bits below; also the carry out. */
  function DivStep(d: Word, q: Word, v: Word): (Word, Word, bool) {
    var borrow := d < v;
    var r := if borrow then Wrap(Wrap(d - v) + v) else d - v;
    var (q0, c0) := Rol(q % 0x100, borrow);
    var (q1, c1) := Rol(q / 0x100, c0);
    var (b, c2) := Rol(r % 0x100, c1);
    var (a, c3) := Rol(r / 0x100, c2);
    (Join(a, b), Join(q1, q0), c3)
  }

  function DivRun(n: nat, d: Word, q: Word, c: bool, v: Word): (Word, Word, bool) {
    if n == 0 then (d, q, c)
    else var (d1, q1, c1) := DivStep(d, q, v); DivRun(n - 1, d1, q1, c1, v)
  }

  /** _00010: D / X by 17 rounds; quotient to X, remainder to D. */
  function Divide(st: Cpu): Cpu { DivideBody(Push(Push(Call(st), st.x), st.d)) }

  function DivideBody(f: Cpu): Cpu {
    var (d, q, c) := DivRun(17, 0, Top(f), false, ReadWord(f.mem, Wrap(f.s + 2)));
    var rem := d / 2 + if c then 0x8000 else 0;
    var quo := 0xffff - q;
    var g := f.(mem := WriteWord(f.mem, f.s, quo), d := rem);
    Pop(Pop(Pop(g).(x := Top(g))))
  }

  /** LBSR _00020: NEGA, NEGB, SBCA #0. */
  function Negate(st: Cpu): Cpu { Pop(Call(st)).(d := Wrap(-(st.d as int))) }

  function ExgDX(st: Cpu): Cpu { st.(d := st.x, x := st.d) }

  /** The byte at S is the sign of the result; COM flips it. */
  function FlipSign(st: Cpu): Cpu { st.(mem := st.mem[st.s := 0xff - st.mem[st.s]]) }

  function PushSign(st: Cpu): Cpu { st.(s := Wrap(st.s - 1), mem := st.mem[Wrap(st.s - 1) := 0]) }

  /** TST ,S+ and negation of D when the sign byte is set. */
  function PopSign(st: Cpu): Cpu {
    var r := st.(s := Wrap(st.s + 1));
    if st.mem[st.s] >= 0x80 then Negate(r) else r
  }

  /** _00002 */
  function SignedDivide(st: Cpu): Cpu {
    var s0 := PushSign(Call(st));
    var s1 := if s0.x >= 0x8000 then ExgDX(Negate(ExgDX(FlipSign(s0)))) else s0;
    var s2 := if s1.d >= 0x8000 then Negate(FlipSign(s1)) else s1;
    var s3 := Divide(s2);
    Pop(PopSign(s3.(d := s3.x)))
  }

  /** _00004: the divisor's sign is dropped, the dividend's is the result's. */
  function SignedModulo(st: Cpu): Cpu {
    var s0 := PushSign(Call(st));
    var s1 := if s0.x >= 0x8000 then ExgDX(Negate(ExgDX(s0))) else s0;
    var s2 := if s1.d >= 0x8000 then Negate(FlipSign(s1)) else s1;
    Pop(PopSign(Divide(s2)))
  }

  /** LSLB, ROLA */
  function Lsl(d: Word): Word {
    var (lo, c) := Rol(d % 0x100, false);
    Join(Rol(d / 0x100, c).0, lo)
  }

  /** ASRA, RORB and LSRA, RORB */
  function Asr(d: Word, arith: bool): Word {
    var hi := d / 0x100;
    Join(hi / 2 + if arith && hi >= 0x80 then 0x80 else 0, d % 0x100 / 2 + if hi % 2 == 1 then 0x80 else 0)
  }

  function LeftLoop(st: Cpu): Cpu
    decreases st.x
  {
    if st.x == 0 then st else LeftLoop(st.(d := Lsl(st.d), x := st.x - 1))
  }

  function RightLoop(st: Cpu, arith: bool): Cpu
    decreases st.x
  {
    if st.x == 0 then st else RightLoop(st.(d := Asr(st.d, arith), x := st.x - 1), arith)
  }

  /** How often a loop that counts X up to zero runs. */
  function StepsUp(x: Word): nat { if x == 0 then 0 else 0x1_0000 - x }

  lemma OneStepUp(x: Word)
    requires x != 0
    ensures StepsUp(Wrap(x + 1)) == StepsUp(x) - 1
  {}

  /** The loops that count X up to zero from a negative count. */
  function LeftLoopUp(st: Cpu): Cpu
    decreases StepsUp(st.x)
  {
    if st.x == 0 then st else OneStepUp(st.x); LeftLoopUp(st.(d := Lsl(st.d), x := Wrap(st.x + 1)))
  }

  function RightLoopUp(st: Cpu, arith: bool): Cpu
    decreases StepsUp(st.x)
  {
    if st.x == 0 then st else OneStepUp(st.x); RightLoopUp(st.(d := Asr(st.d, arith), x := Wrap(st.x + 1)), arith)
  }

  /** _00006, _00007 and _00008, _00009 */
  function Shift(st: Cpu, left: bool, arith: bool): Cpu {
    var s0 := Call(st);
    if st.x >= 0x8000 then Pop(if left then RightLoopUp(s0, arith) else LeftLoopUp(s0))
    else Pop(if left then LeftLoop(s0) else RightLoop(s0, arith))
  }

  function Library(op: LibOp, st: Cpu): Cpu {
    match op
    case LMul => Multiply(st)
    case LDiv => SignedDivide(st)
    case LUDiv => var r := Divide(Call(st)); Pop(r.(d := r.x))
    case LMod => SignedModulo(st)
    case LUMod => Pop(Divide(Call(st)))
    case LShl => Shift(st, true, true)
    case LUShl => Shift(st, true, false)
    case LShr => Shift(st, false, true)
    case LUShr => Shift(st, false, false)
  }

  // ---------- contract ----------

  /** S, U, Y and everything but the room below S are given back. */
  ghost predicate Restored(st: Cpu, r: Cpu, room: int) {
    && r.y == st.y && r.u == st.u && r.s == st.s
    && forall a :: 0 <= a < 0x1_0000 && !(st.s - room <= a < st.s) ==> r.mem[a] == st.mem[a]
  }

  /** What a routine leaves in X: the operand, the quotient of the magnitudes, or a count
      that has run out. */
  function LeftInX(op: LibOp, d: Word, x: Word): Word {
    match op
    case LMul => x
    case LDiv => UDivide(Magnitude(d), Magnitude(x))
    case LMod => UDivide(Magnitude(d), Magnitude(x))
    case LUDiv => UDivide(d, x)
    case LUMod => UDivide(d, x)
    case LShl => 0
    case LUShl => 0
    case LShr => 0
    case LUShr => 0
  }

  /** Magnitude of a word read as signed. */
  function Magnitude(w: Word): Word { if w >= 0x8000 then Wrap(-(w as int)) else w }

  ghost predicate LibPost(op: LibOp, st: Cpu, r: Cpu) {
    r.d == LibValue(op, st.d, st.x) && r.x == LeftInX(op, st.d, st.x) && Restored(st, r, LIBROOM)
  }

  // ---------- multiplication ----------

  lemma PushedWord(st: Cpu, w: Word)
    requires st.s >= 2
    ensures Push(st, w).s == st.s - 2
    ensures Push(st, w).mem[st.s - 2] == w / 0x100 && Push(st, w).mem[st.s - 1] == w % 0x100
    ensures forall a :: 0 <= a < 0x1_0000 && !(st.s - 2 <= a < st.s) ==> Push(st, w).mem[a] == st.mem[a]
    ensures ReadWord(Push(st, w).mem, st.s - 2) == w
  {}

  /** Memory after PSHS D,X,Y in a called routine. */
  lemma PushedThree(st: Cpu, y: Word, x: Word, d: Word)
    requires st.s >= 8
    ensures var f := Push(Push(Push(Call(st), y), x), d);
            && f.s == st.s - 8
            && f.mem[f.s] == d / 0x100 && f.mem[f.s + 1] == d % 0x100
            && f.mem[f.s + 2] == x / 0x100 && f.mem[f.s + 3] == x % 0x100
            && forall a :: 0 <= a < 0x1_0000 && !(st.s - 8 <= a < st.s) ==> f.mem[a] == st.mem[a]
  {
    hide Push;
    PushedWord(st, RETURNADDRESS);
    PushedWord(Call(st), y);
    PushedWord(Push(Call(st), y), x);
    PushedWord(Push(Push(Call(st), y), x), d);
  }

  /** The two scratch stores and the sums, on memory that holds the pushed operands at s. */
  lemma MultiplyTail(f: Cpu, a: Byte, b: Byte, h: Byte, l: Byte)
    requires f.s <= 0xfff7
    requires f.mem[f.s] == a && f.mem[f.s + 1] == b && f.mem[f.s + 2] == h && f.mem[f.s + 3] == l
    ensures var r := MultiplyBody(f);
            && r.d == Wrap(Join(a, b) * Join(h, l)) && r.x == f.x && r.s == f.s + 8 && r.y == f.y && r.u == f.u
            && forall a :: 0 <= a < 0x1_0000 && !(f.s <= a < f.s + 8) ==> r.mem[a] == f.mem[a]
  {
    hide Join; hide MulBytes; hide Wrap8; hide Wrap; hide Pop;
    Near(f.s);
    var m1 := f.mem[f.s + 4 := MulBytes(a, l) % 0x100];
    var m2 := m1[f.s + 5 := MulBytes(b, h) % 0x100];
    var p := MulBytes(b, l);
    var hi := Wrap8(Wrap8(p / 0x100 + MulBytes(a, l) % 0x100) + MulBytes(b, h) % 0x100);
    assert m2[f.s + 1] == b && m2[f.s + 3] == l && m2[f.s + 4] == MulBytes(a, l) % 0x100 && m2[f.s + 5] == MulBytes(b, h) % 0x100;
    assert MultiplyBody(f) == Pop(f.(s := f.s + 6, mem := m2, d := Join(hi, p % 0x100)));
    ByteProducts(a, b, h, l);
    PopSmall(f.(s := f.s + 6, mem := m2, d := Join(hi, p % 0x100)));
  }

  lemma MultiplyCorrect(st: Cpu)
    requires st.s >= LIBROOM
    ensures LibPost(LMul, st, Multiply(st))
  {
    hide Push; hide Join; hide MultiplyBody;
    PushedThree(st, st.y, st.x, st.d);
    PushKeeps(st, st.y, st.x, st.d);
    var f := Push(Push(Push(Call(st), st.y), st.x), st.d);
    MultiplyTail(f, st.d / 0x100, st.d % 0x100, st.x / 0x100, st.x % 0x100);
    JoinWhole(st.d);
    JoinWhole(st.x);
  }

  lemma Near(s: Word)
    requires s <= 0xfff7
    ensures Wrap(s + 1) == s + 1 && Wrap(s + 2) == s + 2 && Wrap(s + 3) == s + 3
    ensures Wrap(s + 4) == s + 4 && Wrap(s + 5) == s + 5 && Wrap(s + 6) == s + 6
  {}

  lemma PopSmall(st: Cpu)
    requires st.s <= 0xfffd
    ensures Pop(st) == st.(s := st.s + 2)
  {}

  lemma PushKeeps(st: Cpu, y: Word, x: Word, d: Word)
    ensures var f := Push(Push(Push(Call(st), y), x), d); f.y == st.y && f.u == st.u && f.d == st.d && f.x == st.x
  {}

  lemma JoinWhole(w: Word)
    ensures Join(w / 0x100, w % 0x100) == w
  {}

  lemma ByteProducts(a: Byte, b: Byte, h: Byte, l: Byte)
    ensures var p := MulBytes(b, l);
            Join(Wrap8(Wrap8(p / 0x100 + MulBytes(a, l) % 0x100) + MulBytes(b, h) % 0x100), p % 0x100)
            == Wrap(Join(a, b) * Join(h, l))
  {
    hide Wrap; hide Wrap8; hide MulBytes;
    Expand(a, b, h, l);
    SumSplit(MulBytes(a, h), MulBytes(a, l), MulBytes(b, h), MulBytes(b, l));
  }

  lemma SumSplit(ah: Word, al: Word, bh: Word, bl: Word)
    ensures Join(Wrap8(Wrap8(bl / 0x100 + al % 0x100) + bh % 0x100), bl % 0x100)
            == Wrap(0x1_0000 * ah + 0x100 * (al + bh) + bl)
  {
    hide Wrap; hide Wrap8;
    var z := ah + al / 0x100 + bh / 0x100;
    var sum := bl / 0x100 + al % 0x100 + bh % 0x100;
    assert 0x1_0000 * ah + 0x100 * (al + bh) + bl == 0x1_0000 * z + (0x100 * sum + bl % 0x100);
    WrapMultiple(z, 0x100 * sum + bl % 0x100);
    WrapHigh(sum, bl % 0x100);
    Wrap8Twice(bl / 0x100 + al % 0x100, bh % 0x100);
  }

  lemma Expand(a: int, b: int, h: int, l: int)
    ensures (0x100 * a + b) * (0x100 * h + l) == 0x1_0000 * (a * h) + 0x100 * (a * l + b * h) + b * l
  {
    assert (0x100 * a + b) * (0x100 * h + l) == 0x100 * a * (0x100 * h) + 0x100 * a * l + b * (0x100 * h) + b * l;
  }

  lemma WrapMultiple(z: int, n: int)
    ensures Wrap(0x1_0000 * z + n) == Wrap(n)
  {}

  lemma WrapHigh(sum: int, lo: Byte)
    ensures Wrap(0x100 * sum + lo) == Join(Wrap8(sum), lo)
  {}

  lemma Wrap8Twice(p: int, q: int)
    ensures Wrap8(Wrap8(p) + q) == Wrap8(p + q)
  {}

  // ---------- shifts ----------

  lemma LslDoubles(d: Word)
    ensures Lsl(d) == Wrap(2 * d)
  {
    hide Rol; hide Wrap; hide Join;
    RolWord(d, false);
  }

  lemma AsrHalves(d: Word)
    ensures Asr(d, false) == d / 2
    ensures Signed(Asr(d, true)) == Signed(d) / 2
  {}

  /** Floor division by 2 and then by p is floor division by 2p. */
  lemma DivDiv(a: int, p: int)
    requires p >= 1
    ensures a / 2 / p == a / (2 * p)
  {
    var q := a / 2 / p;
    var r := a / 2 % p;
    assert a / 2 == p * q + r;
    assert a == (2 * p) * q + (2 * r + a % 2);
    DivUnique(a, 2 * p, q, 2 * r + a % 2);
  }

  lemma WrapScale(p: int, a: int)
    ensures Wrap(p * Wrap(a)) == Wrap(p * a)
  {
    var q := a / 0x1_0000;
    assert a == 0x1_0000 * q + Wrap(a);
    assert p * a == 0x1_0000 * (p * q) + p * Wrap(a);
    WrapMultiple(p * q, p * Wrap(a));
  }

  lemma ShiftLeftStep(d: Word, n: nat)
    requires n > 0
    ensures ShiftLeft(Lsl(d), n - 1) == ShiftLeft(d, n)
  {
    hide Wrap; hide Lsl;
    LslDoubles(d);
    WrapScale(Pow2(n - 1), 2 * d);
    assert Pow2(n - 1) * (2 * d) == d * Pow2(n);
    assert Wrap(2 * d) * Pow2(n - 1) == Pow2(n - 1) * Wrap(2 * d);
  }

  /** One function for both right shifts. */
  function Right(d: Word, n: nat, arith: bool): Word {
    if arith then ShiftArith(d, n) else ShiftRight(d, n)
  }

  lemma RightStep(d: Word, n: nat, arith: bool)
    requires n > 0
    ensures Right(Asr(d, arith), n - 1, arith) == Right(d, n, arith)
  {
    hide Asr; hide Signed; hide Wrap;
    AsrHalves(d);
    DivDiv(if arith then Signed(d) else d, Pow2(n - 1));
  }

  lemma ShiftNone(d: Word, arith: bool)
    ensures ShiftLeft(d, 0) == d && Right(d, 0, arith) == d
  {
    assert Pow2(0) == 1;
    assert d * 1 == d;
  }

  /** Only D and X differ, and X has been counted to zero. */
  predicate Counted(st: Cpu, r: Cpu) {
    r.x == 0 && r.y == st.y && r.u == st.u && r.s == st.s && r.mem == st.mem
  }

  lemma {:induction false} LeftLoopCorrect(st: Cpu)
    ensures var r := LeftLoop(st); r.d == ShiftLeft(st.d, st.x) && Counted(st, r)
    decreases st.x
  {
    hide ShiftLeft; hide Lsl;
    if st.x == 0 {
      ShiftNone(st.d, false);
    } else {
      LeftLoopCorrect(st.(d := Lsl(st.d), x := st.x - 1));
      ShiftLeftStep(st.d, st.x);
    }
  }

  lemma {:induction false} RightLoopCorrect(st: Cpu, arith: bool)
    ensures var r := RightLoop(st, arith); r.d == Right(st.d, st.x, arith) && Counted(st, r)
    decreases st.x
  {
    hide Right; hide Asr;
    if st.x == 0 {
      ShiftNone(st.d, arith);
    } else {
      RightLoopCorrect(st.(d := Asr(st.d, arith), x := st.x - 1), arith);
      RightStep(st.d, st.x, arith);
    }
  }

  lemma {:induction false} LeftLoopUpCorrect(st: Cpu)
    ensures var r := LeftLoopUp(st); r.d == ShiftLeft(st.d, StepsUp(st.x)) && Counted(st, r)
    decreases StepsUp(st.x)
  {
    hide ShiftLeft; hide Lsl;
    if st.x == 0 {
      ShiftNone(st.d, false);
    } else {
      LeftLoopUpCorrect(st.(d := Lsl(st.d), x := Wrap(st.x + 1)));
      ShiftLeftStep(st.d, StepsUp(st.x));
    }
  }

  lemma {:induction false} RightLoopUpCorrect(st: Cpu, arith: bool)
    ensures var r := RightLoopUp(st, arith); r.d == Right(st.d, StepsUp(st.x), arith) && Counted(st, r)
    decreases StepsUp(st.x)
  {
    hide Right; hide Asr;
    if st.x == 0 {
      ShiftNone(st.d, arith);
    } else {
      RightLoopUpCorrect(st.(d := Asr(st.d, arith), x := Wrap(st.x + 1)), arith);
      RightStep(st.d, StepsUp(st.x), arith);
    }
  }

  lemma ShiftCorrect(st: Cpu, left: bool, arith: bool)
    requires st.s >= LIBROOM
    ensures var r := Shift(st, left, arith);
            && Restored(st, r, LIBROOM) && r.x == 0
            && r.d == if left == (st.x < 0x8000) then ShiftLeft(st.d, if left then st.x else StepsUp(st.x))
                      else Right(st.d, if left then StepsUp(st.x) else st.x, arith)
  {
    hide ShiftLeft; hide Right; hide Push; hide LeftLoop; hide RightLoop; hide LeftLoopUp; hide RightLoopUp;
    var s0 := Call(st);
    PushedWord(st, RETURNADDRESS);
    assert s0.d == st.d && s0.x == st.x && s0.y == st.y && s0.u == st.u by { PushKeeps1(st, RETURNADDRESS); }
    LeftLoopUpCorrect(s0);
    RightLoopUpCorrect(s0, arith);
    LeftLoopCorrect(s0);
    RightLoopCorrect(s0, arith);
  }

  lemma PushKeeps1(st: Cpu, w: Word)
    ensures var f := Push(st, w); f.y == st.y && f.u == st.u && f.d == st.d && f.x == st.x
  {}

  // ---------- division ----------

  lemma RolWord(w: Word, c: bool)
    ensures var (lo, c0) := Rol(w % 0x100, c);
            var (hi, c1) := Rol(w / 0x100, c0);
            Join(hi, lo) == Wrap(2 * w + if c then 1 else 0) && c1 == (w >= 0x8000)
  {
    hide Rol; hide Wrap;
    var a, b := w / 0x100, w % 0x100;
    RolByte(b, c);
    RolByte(a, b >= 0x80);
    WrapOnce(2 * w + if c then 1 else 0);
    assert w == 0x100 * a + b;
  }

  lemma RolByte(b: Byte, c: bool)
    ensures Rol(b, c).1 == (b >= 0x80)
    ensures Rol(b, c).0 == 2 * b + (if c then 1 else 0) - (if b >= 0x80 then 0x100 else 0)
  {}

  lemma WrapOnce(n: int)
    requires 0 <= n < 0x2_0000
    ensures Wrap(n) == if n >= 0x1_0000 then n - 0x1_0000 else n
  {}

  /** One round as arithmetic on the 32-bit value d:q. */
  lemma DivStepValue(d: Word, q: Word, v: Word)
    ensures var (d1, q1, c1) := DivStep(d, q, v);
            var digit := if d < v then 0 else 1;
            var t := 0x1_0000 * (d - digit * v) + q;
            0x1_0000_0000 * (if c1 then 1 else 0) + 0x1_0000 * d1 + q1 == 2 * t + 1 - digit
            && d1 == Wrap(2 * (d - digit * v) + if q >= 0x8000 then 1 else 0)
            && c1 == (d - digit * v >= 0x8000)
  {
    hide Rol; hide Join; hide Wrap;
    var borrow := d < v;
    var r: Word := if borrow then d else d - v;
    AddedBack(d, v);
    RolWord(q, borrow);
    RolWord(r, q >= 0x8000);
    WrapOnce(2 * q + if borrow then 1 else 0);
    WrapOnce(2 * r + if q >= 0x8000 then 1 else 0);
  }

  lemma AddedBack(d: Word, v: Word)
    ensures Wrap(Wrap(d - v) + v) == d
  {}

  /**
    After i rounds on dividend N, with k the quotient digits so far and p == 2^i:
    d:q == p*N - 2^17*(v*k) + (p-1-k).  From there the remaining rounds end with d:q
    (and the carry on top) at the same expression for 17 rounds.
   */
  lemma {:induction false} DivRunCorrect(i: nat, d: Word, q: Word, k: nat, n: Word, v: Word, c: bool)
    requires i <= 16 && k < Pow2(i) && d < Pow2(i)
    requires if v > 0 then d < 2 * v else k == Pow2(i) - 1
    requires 0x1_0000 * d + q == Pow2(i) * n - 0x2_0000 * (v * k) + (Pow2(i) - 1 - k)
    ensures var (d', q', c') := DivRun(17 - i, d, q, c, v);
            var r := d' / 2 + if c' then 0x8000 else 0;
            exists k': nat :: n == v * k' + r && (if v > 0 then r < v else k' == 0x1_ffff) && 0xffff - q' == k' % 0x1_0000
    decreases 16 - i
  {
    hide DivStep; hide Wrap; hide Pow2; hide DivRun;
    var digit := if d < v then 0 else 1;
    var (d1, q1, c1) := DivStep(d, q, v);
    DivStepValue(d, q, v);
    var k1 := 2 * k + digit;
    var p := Pow2(i);
    Products(v, k, digit, p, n);
    PowStep(i);
    DivRunStep(17 - i, d, q, c, v);
    if i == 16 {
      PowSixteen();
      DivRunStep(1, d1, q1, c1, v);
      DivEnd(d1, q1, c1, k1, n, v, d - digit * v, q, digit);
    } else {
      PowMono(i + 1);
      WrapSmallSum(d, v, q, digit, p);
      DivRunCorrect(i + 1, d1, q1, k1, n, v, c1);
    }
  }

  lemma Products(v: int, k: int, digit: int, p: int, n: int)
    requires digit == 0 || digit == 1
    ensures v * (2 * k + digit) == 2 * (v * k) + digit * v
    ensures (2 * p) * n == 2 * (p * n)
  {}

  lemma PowStep(i: nat)
    ensures Pow2(i + 1) == 2 * Pow2(i)
  {}

  lemma DivRunStep(n: nat, d: Word, q: Word, c: bool, v: Word)
    requires n > 0
    ensures var (d1, q1, c1) := DivStep(d, q, v);
            DivRun(n, d, q, c, v) == DivRun(n - 1, d1, q1, c1, v)
    ensures DivRun(0, d, q, c, v) == (d, q, c)
  {
    hide DivStep;
  }

  lemma WrapSmallSum(d: Word, v: Word, q: Word, digit: int, p: int)
    requires digit == (if d < v then 0 else 1) && d < p <= 0x8000
    requires v > 0 ==> d < 2 * v
    ensures var r := d - digit * v;
            var d1 := Wrap(2 * r + if q >= 0x8000 then 1 else 0);
            0 <= r < 0x8000 && d1 < 2 * p && (v > 0 ==> d1 < 2 * v)
  {}

  lemma PowSixteen()
    ensures Pow2(16) == 0x1_0000 && Pow2(17) == 0x2_0000
  {
    Pow8();
  }

  lemma {:induction false} PowMono(i: nat)
    requires i <= 16
    ensures Pow2(i) <= 0x1_0000
    decreases 16 - i
  {
    if i == 16 { PowSixteen(); } else { PowMono(i + 1); }
  }

  lemma DivEnd(d1: Word, q1: Word, c1: bool, k1: nat, n: Word, v: Word, r: int, q: Word, digit: int)
    requires (digit == 0 || digit == 1) && k1 < 0x2_0000 && 0 <= r && (v > 0 ==> r < v)
    requires 0x1_0000_0000 * (if c1 then 1 else 0) + 0x1_0000 * d1 + q1 == 2 * (0x1_0000 * r + q) + 1 - digit
    requires 2 * (0x1_0000 * r + q) + 1 - digit == 0x2_0000 * n - 0x2_0000 * (v * k1) + (0x2_0000 - 1 - k1)
    ensures var r' := d1 / 2 + if c1 then 0x8000 else 0;
            n == v * k1 + r' && (v > 0 ==> r' < v) && 0xffff - q1 == k1 % 0x1_0000
  {
    var w := v * k1;
    var r' := d1 / 2 + if c1 then 0x8000 else 0;
    assert r' == r;
    assert r == n - w;
  }

  /** The division subroutine. */
  lemma DivideCorrect(st: Cpu)
    requires st.s >= 6
    ensures var r := Divide(st);
            r.d == UModulo(st.d, st.x) && r.x == UDivide(st.d, st.x) && Restored(st, r, 6)
  {
    hide DivRun; hide Push; hide WriteWord;
    PushedWord(st, RETURNADDRESS);
    var f0 := Call(st);
    PushKeeps1(st, RETURNADDRESS);
    PushedWord(f0, st.x);
    PushKeeps1(f0, st.x);
    var f1 := Push(f0, st.x);
    PushedWord(f1, st.d);
    PushKeeps1(f1, st.d);
    var f := Push(f1, st.d);
    assert ReadWord(f.mem, f.s + 2) == st.x by { JoinWhole(st.x); }
    DivideTail(f, st.d, st.x);
  }

  lemma DivideTail(f: Cpu, n: Word, v: Word)
    requires f.s <= 0xfff9 && Top(f) == n && ReadWord(f.mem, Wrap(f.s + 2)) == v
    ensures var r := DivideBody(f);
            && r.d == UModulo(n, v) && r.x == UDivide(n, v) && r.s == f.s + 6 && r.y == f.y && r.u == f.u
            && forall a :: 0 <= a < 0x1_0000 && !(f.s <= a < f.s + 2) ==> r.mem[a] == f.mem[a]
  {
    hide DivRun; hide WriteWord; hide ReadWord; hide UModulo; hide UDivide;
    DivValue(n, v);
    Stored2(f.mem, f.s, UDivide(n, v));
  }

  /** 17 rounds give quotient and remainder. */
  lemma DivValue(n: Word, v: Word)
    ensures var (d', q', c') := DivRun(17, 0, n, false, v);
            0xffff - q' == UDivide(n, v) && d' / 2 + (if c' then 0x8000 else 0) == UModulo(n, v)
  {
    hide DivRun;
    assert Pow2(0) == 1;
    DivRunCorrect(0, 0, n, 0, n, v, false);
    var (d', q', c') := DivRun(17, 0, n, false, v);
    var rem := d' / 2 + if c' then 0x8000 else 0;
    var k :| n == v * k + rem && (if v > 0 then rem < v else k == 0x1_ffff) && 0xffff - q' == k % 0x1_0000;
    if v > 0 {
      DivUnique(n, v, k, rem);
      Floor(n, v);
    }
  }

  lemma Stored2(m: Memory, a: Word, w: Word)
    requires a <= 0xfffe
    ensures ReadWord(WriteWord(m, a, w), a) == w
    ensures forall b :: 0 <= b < 0x1_0000 && !(a <= b < a + 2) ==> WriteWord(m, a, w)[b] == m[b]
  {}

  // ---------- signed division ----------

  lemma NegateCorrect(st: Cpu)
    requires st.s >= 2
    ensures var r := Negate(st);
            r.d == Wrap(-(st.d as int)) && r.x == st.x && Restored(st, r, 2)
  {
    hide Push;
    PushedWord(st, RETURNADDRESS);
    PushKeeps1(st, RETURNADDRESS);
  }

  lemma SignPushed(st: Cpu)
    requires st.s >= 3
    ensures var r := PushSign(Call(st));
            && r.s == st.s - 3 && r.mem[r.s] == 0 && r.d == st.d && r.x == st.x && r.y == st.y && r.u == st.u
            && forall a :: 0 <= a < 0x1_0000 && !(st.s - 3 <= a < st.s) ==> r.mem[a] == st.mem[a]
  {
    hide Push;
    PushedWord(st, RETURNADDRESS);
    PushKeeps1(st, RETURNADDRESS);
  }

  /** Working states of the signed routines: sign byte at S, everything outside the room kept. */
  ghost predicate Working(st: Cpu, w: Cpu, neg: bool) {
    && st.s >= LIBROOM && w.s == st.s - 3 && w.y == st.y && w.u == st.u
    && w.mem[w.s] == (if neg then 0xff else 0)
    && forall a :: 0 <= a < 0x1_0000 && !(st.s - LIBROOM <= a < st.s) ==> w.mem[a] == st.mem[a]
  }

  lemma FlipWorking(st: Cpu, w: Cpu, neg: bool)
    requires Working(st, w, neg)
    ensures var r := FlipSign(w); Working(st, r, !neg) && r.d == w.d && r.x == w.x
  {}

  lemma NegateWorking(st: Cpu, w: Cpu, neg: bool)
    requires Working(st, w, neg)
    ensures var r := Negate(w); Working(st, r, neg) && r.d == Wrap(-(w.d as int)) && r.x == w.x
    ensures var r := ExgDX(Negate(ExgDX(w))); Working(st, r, neg) && r.x == Wrap(-(w.x as int)) && r.d == w.d
  {
    hide Negate;
    NegateCorrect(w);
    NegateCorrect(ExgDX(w));
  }

  lemma DivideWorking(st: Cpu, w: Cpu, neg: bool)
    requires Working(st, w, neg)
    ensures var r := Divide(w);
            Working(st, r, neg) && r.d == UModulo(w.d, w.x) && r.x == UDivide(w.d, w.x)
  {
    hide Divide; hide UModulo; hide UDivide;
    DivideCorrect(w);
  }

  lemma PopSignCorrect(st: Cpu, w: Cpu, neg: bool)
    requires Working(st, w, neg)
    ensures var r := Pop(PopSign(w));
            Restored(st, r, LIBROOM) && r.x == w.x && r.d == if neg then Wrap(-(w.d as int)) else w.d
  {
    hide Negate;
    NegateCorrect(w.(s := w.s + 1));
  }

  lemma SignedDivideCorrect(st: Cpu)
    requires st.s >= LIBROOM
    ensures LibPost(LDiv, st, SignedDivide(st))
  {
    hide Negate; hide Divide; hide FlipSign; hide ExgDX; hide PopSign; hide PushSign; hide Call; hide UDivide; hide UModulo;
    hide Wrap; hide Pop;
    var s0 := PushSign(Call(st));
    SignPushed(st);
    var n0 := s0.x >= 0x8000;
    FlipWorking(st, s0, false);
    NegateWorking(st, FlipSign(s0), true);
    var s1 := if n0 then ExgDX(Negate(ExgDX(FlipSign(s0)))) else s0;
    assert Working(st, s1, n0) && s1.x == Magnitude(st.x) && s1.d == st.d;
    FlipWorking(st, s1, n0);
    NegateWorking(st, FlipSign(s1), !n0);
    var n1 := s1.d >= 0x8000;
    var s2 := if n1 then Negate(FlipSign(s1)) else s1;
    assert Working(st, s2, n0 != n1) && s2.x == Magnitude(st.x) && s2.d == Magnitude(st.d);
    DivideWorking(st, s2, n0 != n1);
    var s3 := Divide(s2);
    PopSignCorrect(st, s3.(d := s3.x), n0 != n1);
    QuotientValue(st.d, st.x);
  }

  lemma QuotientValue(d: Word, x: Word)
    ensures var q := UDivide(Magnitude(d), Magnitude(x));
            (if (x >= 0x8000) != (d >= 0x8000) then Wrap(-(q as int)) else q) == LibValue(LDiv, d, x)
  {
    hide Magnitude; hide Signed; hide Wrap; hide LibValue;
    MagnitudeIs(d);
    MagnitudeIs(x);
    SignedValues(d, x);
    WrapSmall(UDivide(Magnitude(d), Magnitude(x)));
    MinusLargest();
  }

  lemma MagnitudeIs(w: Word)
    ensures Magnitude(w) == if Signed(w) < 0 then -Signed(w) else Signed(w)
    ensures (w >= 0x8000 <==> Signed(w) < 0) && (Signed(w) == 0 <==> w == 0)
  {}

  lemma WrapSmall(w: Word)
    ensures Wrap(w) == w
  {}

  lemma MinusLargest()
    ensures Wrap(-0xffff) == 1
  {}

  lemma SignedValues(d: Word, x: Word)
    ensures LibValue(LDiv, d, x) == if x == 0 then (if Signed(d) < 0 then 1 else 0xffff) else Wrap(Quotient(Signed(d), Signed(x)))
    ensures LibValue(LMod, d, x) == if x == 0 then d else Wrap(Remainder(Signed(d), Signed(x)))
  {
    hide Wrap; hide Quotient; hide Remainder;
  }

  lemma SignedModuloCorrect(st: Cpu)
    requires st.s >= LIBROOM
    ensures LibPost(LMod, st, SignedModulo(st))
  {
    hide Negate; hide Divide; hide FlipSign; hide ExgDX; hide PopSign; hide PushSign; hide Call; hide UDivide; hide UModulo;
    hide Wrap; hide Pop;
    var s0 := PushSign(Call(st));
    SignPushed(st);
    NegateWorking(st, s0, false);
    var s1 := if s0.x >= 0x8000 then ExgDX(Negate(ExgDX(s0))) else s0;
    assert Working(st, s1, false) && s1.x == Magnitude(st.x) && s1.d == st.d;
    FlipWorking(st, s1, false);
    NegateWorking(st, FlipSign(s1), true);
    var n1 := s1.d >= 0x8000;
    var s2 := if n1 then Negate(FlipSign(s1)) else s1;
    assert Working(st, s2, n1) && s2.x == Magnitude(st.x) && s2.d == Magnitude(st.d);
    DivideWorking(st, s2, n1);
    PopSignCorrect(st, Divide(s2), n1);
    RemainderValue(st.d, st.x);
  }

  lemma RemainderValue(d: Word, x: Word)
    ensures var r := UModulo(Magnitude(d), Magnitude(x));
            (if d >= 0x8000 then Wrap(-(r as int)) else r) == LibValue(LMod, d, x)
  {
    hide Magnitude; hide Signed; hide Wrap; hide LibValue;
    MagnitudeIs(d);
    MagnitudeIs(x);
    SignedValues(d, x);
    WrapSmall(UModulo(Magnitude(d), Magnitude(x)));
    SignedWraps(d);
  }

  lemma SignedWraps(w: Word)
    ensures Wrap(Signed(w)) == w
  {}

  lemma UnsignedCorrect(st: Cpu)
    requires st.s >= LIBROOM
    ensures LibPost(LUDiv, st, Library(LUDiv, st)) && LibPost(LUMod, st, Library(LUMod, st))
  {
    hide Push; hide Divide; hide UDivide; hide UModulo;
    PushedWord(st, RETURNADDRESS);
    PushKeeps1(st, RETURNADDRESS);
    DivideCorrect(Call(st));
  }

  lemma ShiftValue(op: LibOp, st: Cpu)
    requires op.LShl? || op.LUShl? || op.LShr? || op.LUShr?
    requires st.s >= LIBROOM
    ensures LibPost(op, st, Library(op, st))
  {
    hide Shift; hide ShiftLeft; hide ShiftRight; hide ShiftArith;
    ShiftCorrect(st, op.LShl? || op.LUShl?, op.LShl? || op.LShr?);
  }

  /** Every routine meets its contract. */
  lemma LibraryCorrect(op: LibOp, st: Cpu)
    requires st.s >= LIBROOM
    ensures LibPost(op, st, Library(op, st))
  {
    hide LibPost; hide Multiply; hide SignedDivide; hide SignedModulo; hide Divide; hide Shift;
    match op
    case LMul => MultiplyCorrect(st);
    case LDiv => SignedDivideCorrect(st);
    case LMod => SignedModuloCorrect(st);
    case LUDiv => UnsignedCorrect(st);
    case LUMod => UnsignedCorrect(st);
    case LShl => ShiftValue(op, st);
    case LUShl => ShiftValue(op, st);
    case LShr => ShiftValue(op, st);
    case LUShr => ShiftValue(op, st);
  }
}
