/**
  The line editor of Tiny BASIC.  The program area holds lines one after the other: number,
  text, EOL.  The editor works on it in place with scratch pointers and remembers in CURSOR
  where it was last.
 */
module Editor {
  import opened Machine

  const EOL := 4
  const SPACE := 0x20

  datatype Line = Line(number: Word, text: seq<Byte>)

  predicate Proper(l: Line) { l.text != [] && EOL !in l.text }

  function Encode(l: Line): seq<Byte> { [l.number / 0x100, l.number % 0x100] + (l.text + [EOL]) }

  function Layout(p: seq<Line>): seq<Byte> { if p == [] then [] else Encode(p[0]) + Layout(p[1..]) }

  /** Strictly increasing numbers. */
  ghost predicate Sorted(p: seq<Line>) {
    (forall l :: l in p ==> Proper(l)) && forall i, j :: 0 <= i < j < |p| ==> p[i].number < p[j].number
  }

  // ---------- what an edit means ----------

  function Trimmed(t: seq<Byte>): seq<Byte> {
    if t == [] || t[|t| - 1] != SPACE then t else Trimmed(t[..|t| - 1])
  }

  /** How many lines have smaller numbers. */
  function Rank(p: seq<Line>, n: Word): (i: nat)
    ensures i <= |p|
  {
    if p == [] || p[0].number >= n then 0 else 1 + Rank(p[1..], n)
  }

  predicate Present(p: seq<Line>, n: Word) { Rank(p, n) < |p| && p[Rank(p, n)].number == n }

  function Deleted(p: seq<Line>, n: Word): seq<Line> {
    var i := Rank(p, n);
    if Present(p, n) then p[..i] + p[i + 1..] else p
  }

  function Inserted(p: seq<Line>, l: Line): seq<Line> {
    var i := Rank(p, l.number);
    p[..i] + [l] + p[i..]
  }

  function Edited(p: seq<Line>, n: Word, t: seq<Byte>): seq<Line> {
    if t == [] then Deleted(p, n) else Inserted(Deleted(p, n), Line(n, Trimmed(t)))
  }

  /** The program as a table from numbers to texts. */
  ghost function Listing(p: seq<Line>): map<Word, seq<Byte>> {
    if p == [] then map[] else Listing(p[..|p| - 1])[p[|p| - 1].number := p[|p| - 1].text]
  }

  lemma {:induction false} RankSplits(p: seq<Line>, n: Word)
    requires Sorted(p)
    ensures var i := Rank(p, n);
            (forall k :: 0 <= k < i ==> p[k].number < n) && (forall k :: i <= k < |p| ==> p[k].number >= n)
  {
    if p != [] && p[0].number < n {
      assert Sorted(p[1..]) by { SortedPart(p, 1, |p|); }
      RankSplits(p[1..], n);
      forall k | 0 <= k < Rank(p, n) ensures p[k].number < n { if k > 0 { assert p[k] == p[1..][k - 1]; } }
      forall k | Rank(p, n) <= k < |p| ensures p[k].number >= n { assert p[k] == p[1..][k - 1]; }
    }
  }

  lemma SortedPart(p: seq<Line>, i: nat, j: nat)
    requires Sorted(p) && i <= j <= |p|
    ensures Sorted(p[i..j])
  {}

  lemma {:induction false} RankIs(p: seq<Line>, n: Word, i: nat)
    requires i <= |p| && (forall k :: 0 <= k < i ==> p[k].number < n) && (i < |p| ==> p[i].number >= n)
    ensures Rank(p, n) == i
  {
    if i > 0 {
      assert forall k :: 0 <= k < i - 1 ==> p[1..][k] == p[k + 1];
      RankIs(p[1..], n, i - 1);
    }
  }

  lemma {:induction false} TrimmedIs(t: seq<Byte>)
    ensures |Trimmed(t)| <= |t| && Trimmed(t) == t[..|Trimmed(t)|]
    ensures Trimmed(t) == [] || Trimmed(t)[|Trimmed(t)| - 1] != SPACE
    ensures forall k :: |Trimmed(t)| <= k < |t| ==> t[k] == SPACE
    ensures t != [] && t[0] != SPACE ==> Trimmed(t) != []
  {
    if t != [] && t[|t| - 1] == SPACE { TrimmedIs(t[..|t| - 1]); }
  }

  lemma DeletedSorted(p: seq<Line>, n: Word)
    requires Sorted(p)
    ensures Sorted(Deleted(p, n)) && Rank(Deleted(p, n), n) == Rank(p, n) && !Present(Deleted(p, n), n)
  {
    RankSplits(p, n);
    var i, d := Rank(p, n), Deleted(p, n);
    if Present(p, n) {
      forall k | 0 <= k < |d| ensures d[k] == if k < i then p[k] else p[k + 1] {}
      RankIs(d, n, i);
    }
  }

  lemma InsertedSorted(p: seq<Line>, l: Line)
    requires Sorted(p) && Proper(l) && !Present(p, l.number)
    ensures Sorted(Inserted(p, l))
  {
    RankSplits(p, l.number);
    var i, d := Rank(p, l.number), Inserted(p, l);
    forall k | 0 <= k < |d| ensures d[k] == if k < i then p[k] else if k == i then l else p[k - 1] {}
    assert i < |p| ==> p[i].number > l.number;
    forall k | i <= k < |p| ensures p[k].number > l.number { assert i < k ==> p[i].number < p[k].number; }
  }

  /** The table holds exactly the lines. */
  lemma {:induction false} ListingHas(p: seq<Line>)
    requires Sorted(p)
    ensures forall n: Word, t :: Entry(Listing(p), n, t) <==> Line(n, t) in p
  {
    if p != [] {
      var q, l := p[..|p| - 1], p[|p| - 1];
      SortedPart(p, 0, |p| - 1);
      ListingHas(q);
      assert p == q + [l];
      forall m | m in q ensures m.number != l.number {
        var k :| 0 <= k < |q| && q[k] == m;
        assert p[k] == m;
      }
    }
  }

  lemma DeletedHas(p: seq<Line>, n: Word)
    requires Sorted(p)
    ensures forall l :: l in Deleted(p, n) <==> l in p && l.number != n
  {
    RankSplits(p, n);
    var i := Rank(p, n);
    if Present(p, n) {
      assert p == p[..i] + [p[i]] + p[i + 1..];
      forall l | l in p[i + 1..] ensures l.number != n {
        var k :| 0 <= k < |p[i + 1..]| && p[i + 1..][k] == l;
        assert p[i].number < p[i + 1 + k].number;
      }
    } else {
      forall l | l in p ensures l.number != n {
        var k :| 0 <= k < |p| && p[k] == l;
        assert i < k ==> p[i].number < p[k].number;
      }
    }
  }

  lemma InsertedHas(p: seq<Line>, l: Line)
    ensures forall m :: m in Inserted(p, l) <==> m == l || m in p
  {
    var i := Rank(p, l.number);
    assert p == p[..i] + p[i..];
  }

  lemma DeletedListing(p: seq<Line>, n: Word)
    requires Sorted(p)
    ensures Listing(Deleted(p, n)) == Listing(p) - {n}
  {
    hide Listing; hide Deleted; hide Sorted;
    DeletedSorted(p, n);
    DeletedHas(p, n);
    ListingHas(p);
    ListingHas(Deleted(p, n));
    var d := Listing(p) - {n};
    forall m: Word, t ensures Entry(d, m, t) <==> Entry(Listing(Deleted(p, n)), m, t) {
      assert Entry(Listing(p), m, t) <==> Line(m, t) in p;
      assert Line(m, t) in Deleted(p, n) <==> Line(m, t) in p && m != n;
    }
    SameTable(Listing(Deleted(p, n)), d);
  }

  predicate Entry(m: map<Word, seq<Byte>>, n: Word, t: seq<Byte>) { n in m && m[n] == t }

  lemma SameTable(a: map<Word, seq<Byte>>, b: map<Word, seq<Byte>>)
    requires forall n: Word, t :: Entry(a, n, t) <==> Entry(b, n, t)
    ensures a == b
  {
    forall n: Word ensures (n in a <==> n in b) && (n in a ==> a[n] == b[n]) {
      assert n in a ==> Entry(a, n, a[n]);
      assert n in b ==> Entry(b, n, b[n]);
    }
  }

  lemma InsertedListing(p: seq<Line>, l: Line)
    requires Sorted(p) && Proper(l) && !Present(p, l.number)
    ensures Listing(Inserted(p, l)) == Listing(p)[l.number := l.text]
  {
    hide Listing; hide Inserted; hide Sorted;
    InsertedSorted(p, l);
    InsertedHas(p, l);
    ListingHas(p);
    ListingHas(Inserted(p, l));
    NotPresent(p, l.number);
    var d := Listing(p)[l.number := l.text];
    forall m: Word, t ensures Entry(d, m, t) <==> Entry(Listing(Inserted(p, l)), m, t) {
      assert Entry(Listing(p), m, t) <==> Line(m, t) in p;
      assert Line(m, t) in Inserted(p, l) <==> Line(m, t) == l || Line(m, t) in p;
    }
    SameTable(Listing(Inserted(p, l)), d);
  }

  lemma NotPresent(p: seq<Line>, n: Word)
    requires Sorted(p) && !Present(p, n)
    ensures forall l :: l in p ==> l.number != n
  {
    RankSplits(p, n);
    forall l | l in p ensures l.number != n {
      var k :| 0 <= k < |p| && p[k] == l;
      assert Rank(p, n) < k ==> p[Rank(p, n)].number < p[k].number;
    }
  }

  /** An edit keeps the program sorted and is an update of the table: delete, insert or
      replace. */
  lemma EditIsUpdate(p: seq<Line>, n: Word, t: seq<Byte>)
    requires Sorted(p) && EOL !in t && (t != [] ==> t[0] != SPACE)
    ensures Sorted(Edited(p, n, t))
    ensures Listing(Edited(p, n, t)) == if t == [] then Listing(p) - {n} else Listing(p)[n := Trimmed(t)]
  {
    hide Listing; hide Deleted; hide Inserted; hide Sorted; hide Trimmed; hide Present;
    DeletedSorted(p, n);
    DeletedListing(p, n);
    if t != [] {
      TrimmedIs(t);
      InsertedSorted(Deleted(p, n), Line(n, Trimmed(t)));
      InsertedListing(Deleted(p, n), Line(n, Trimmed(t)));
    }
  }

  // ---------- the program area ----------

  lemma {:induction false} LayoutAppend(p: seq<Line>, q: seq<Line>)
    ensures Layout(p + q) == Layout(p) + Layout(q)
  {
    hide Encode;
    if p == [] {
      assert p + q == q;
    } else {
      assert (p + q)[1..] == p[1..] + q;
      LayoutAppend(p[1..], q);
    }
  }

  /** Where line k starts, counted from the start of the program. */
  function Offset(p: seq<Line>, k: nat): nat
    requires k <= |p|
  {
    |Layout(p[..k])|
  }

  /** In the area, line k is its number, high byte first, its text and a byte 4, and the next line
      follows at once. */
  lemma AreaBytes(p: seq<Line>, k: nat)
    requires k < |p|
    ensures var a, o, t := Layout(p), Offset(p, k), p[k].text;
            && Offset(p, k + 1) == o + |t| + 3 <= |a|
            && a[o] as int * 0x100 + a[o + 1] == p[k].number && a[o + 2..o + 2 + |t|] == t && a[o + 2 + |t|] == 0x04
  {
    hide Layout; hide Encode;
    var q, l := p[..k], p[k];
    assert p == (q + [l]) + p[k + 1..] && p[..k + 1] == q + [l];
    LayoutAppend(q + [l], p[k + 1..]);
    LayoutAppend(q, [l]);
    LayoutOne(l);
    LineAt(Layout(q), l, Layout(p[k + 1..]));
  }

  lemma LayoutOne(l: Line)
    ensures Layout([l]) == Encode(l)
  {
    assert [l][1..] == [];
  }

  lemma LineAt(before: seq<Byte>, l: Line, after: seq<Byte>)
    ensures var a, o := before + Encode(l) + after, |before|;
            && |Encode(l)| == |l.text| + 3
            && a[o] as int * 0x100 + a[o + 1] == l.number && a[o + 2..o + 2 + |l.text|] == l.text && a[o + 2 + |l.text|] == 0x04
  {
    var a, o := before + Encode(l) + after, |before|;
    assert a[o..o + |Encode(l)|] == Encode(l);
    assert a[o + 2..o + 2 + |l.text|] == Encode(l)[2..2 + |l.text|];
    assert a[o] == Encode(l)[0] && a[o + 1] == Encode(l)[1] && a[o + 2 + |l.text|] == Encode(l)[2 + |l.text|];
  }

  /** The area from line k on. */
  lemma AreaFrom(p: seq<Line>, k: nat)
    requires k <= |p|
    ensures Offset(p, k) <= |Layout(p)| && Layout(p)[..Offset(p, k)] == Layout(p[..k]) && Layout(p)[Offset(p, k)..] == Layout(p[k..])
    ensures k < |p| ==> Layout(p[k..]) == Encode(p[k]) + Layout(p[k + 1..]) && Offset(p, k + 1) == Offset(p, k) + |Encode(p[k])|
    ensures k == |p| ==> Layout(p[k..]) == []
  {
    hide Encode;
    assert p == p[..k] + p[k..];
    LayoutAppend(p[..k], p[k..]);
    if k < |p| {
      assert p[k..][1..] == p[k + 1..];
      assert p[..k + 1] == p[..k] + [p[k]];
      LayoutAppend(p[..k], [p[k]]);
      assert [p[k]][1..] == [];
      assert Layout([p[k]]) == Encode(p[k]) + Layout([]) == Encode(p[k]);
    }
  }

  /** A line's bytes, followed by anything. */
  lemma LineBytes(l: Line, rest: seq<Byte>, area: seq<Byte>)
    requires area == Encode(l) + rest && Proper(l)
    ensures |area| >= 4 && Join(area[0], area[1]) == l.number && area[2..] == l.text + [EOL] + rest
  {
    var e := Encode(l);
    assert area[0] == e[0] && area[1] == e[1];
    assert e[2..] == l.text + [EOL];
  }

  class Basic {
    var mem: array<Byte>
    var usrbas: nat
    var usrtop: nat
    var cursor: nat
    ghost var prog: seq<Line>

    ghost predicate Valid()
      reads this, mem
    {
      && usrbas <= usrtop <= mem.Length
      && Sorted(prog) && mem[usrbas..usrtop] == Layout(prog)
      && exists k :: 0 <= k <= |prog| && cursor == usrbas + Offset(prog, k)
    }

    /** An empty program. */
    constructor (size: nat, usrbas: nat)
      requires usrbas <= size
      ensures Valid() && fresh(mem) && mem.Length == size && prog == [] && this.usrbas == usrbas
    {
      mem := new Byte[size](_ => 0);
      this.usrbas, usrtop, cursor, prog := usrbas, usrbas, usrbas, [];
      new;
      assert cursor == usrbas + Offset(prog, 0);
    }

    /** The bytes of the program from line k on. */
    ghost predicate From(x: nat, k: nat)
      reads this, mem
    {
      usrbas <= x <= usrtop <= mem.Length && k <= |prog| && x == usrbas + Offset(prog, k) && mem[x..usrtop] == Layout(prog[k..])
    }

    lemma StartsAt(k: nat)
      requires Valid() && k <= |prog|
      ensures From(usrbas + Offset(prog, k), k)
    {
      AreaFrom(prog, k);
      var x := usrbas + Offset(prog, k);
      assert mem[x..usrtop] == mem[usrbas..usrtop][Offset(prog, k)..];
    }

    /** To the byte after the next EOL. */
    method SkipText(from: nat, ghost text: seq<Byte>, ghost rest: seq<Byte>) returns (y: nat)
      requires from <= usrtop <= mem.Length && mem[from..usrtop] == text + [EOL] + rest && EOL !in text
      ensures y == from + |text| + 1 && y <= usrtop && mem[y..usrtop] == rest
    {
      y := from;
      ghost var left := text;
      while mem[y] != EOL
        invariant from <= y < usrtop && y + |left| == from + |text| && mem[y..usrtop] == left + [EOL] + rest && EOL !in left
        decreases |left|
      {
        assert mem[y..usrtop][0] == mem[y];
        assert left != [] && left[0] == mem[y];
        assert mem[y + 1..usrtop] == mem[y..usrtop][1..] == left[1..] + [EOL] + rest;
        y, left := y + 1, left[1..];
      }
      assert mem[y..usrtop][0] == mem[y];
      assert left == [];
      assert mem[y + 1..usrtop] == mem[y..usrtop][1..] == rest;
      y := y + 1;
    }

    /** FNDLIN from line k0 on: the first line whose number is not below n. */
    method FindLine(n: Word, x0: nat, ghost k0: nat) returns (x: nat, found: bool)
      requires Valid() && From(x0, k0) && forall j :: 0 <= j < k0 ==> prog[j].number < n
      ensures From(x, Rank(prog, n)) && found == Present(prog, n)
    {
      hide Encode; hide Layout; hide Offset;
      x := x0;
      ghost var k := k0;
      while x != usrtop
        invariant From(x, k) && forall j :: 0 <= j < k ==> prog[j].number < n
        decreases |prog| - k
      {
        AreaFrom(prog, k);
        assert mem[x..usrtop] != [];
        var w := NumberAt(x, k);
        if n == w { RankIs(prog, n, k); return x, true; }
        if n < w { RankIs(prog, n, k); return x, false; }
        x := SkipText(x + 2, prog[k].text, Layout(prog[k + 1..]));
        EncodeLength(prog[k]);
        k := k + 1;
      }
      AreaFrom(prog, k);
      assert k == |prog| by { EmptyTail(prog, k); }
      RankIs(prog, n, k);
      found := false;
    }

    /** The number of the line at x. */
    method NumberAt(x: nat, ghost k: nat) returns (w: Word)
      requires Valid() && From(x, k) && k < |prog|
      ensures w == prog[k].number && x + 4 <= usrtop && EOL !in prog[k].text
      ensures mem[x + 2..usrtop] == prog[k].text + [EOL] + Layout(prog[k + 1..])
    {
      hide Layout;
      AreaFrom(prog, k);
      assert prog[k] in prog;
      LineBytes(prog[k], Layout(prog[k + 1..]), mem[x..usrtop]);
      assert mem[x..usrtop][2..] == mem[x + 2..usrtop];
      assert mem[x..usrtop][0] == mem[x] && mem[x..usrtop][1] == mem[x + 1];
      w := Join(mem[x], mem[x + 1]);
    }

    /** ED03: move everything from `from` to the top down to `at`. */
    method CloseGap(at: nat, from: nat)
      requires at <= from <= usrtop <= mem.Length
      modifies mem, this`usrtop
      ensures usrtop == at + (old(usrtop) - from)
      ensures mem[at..usrtop] == old(mem[from..usrtop])
      ensures forall k :: 0 <= k < at ==> mem[k] == old(mem[k])
    {
      var x, d := from, at;
      while x != usrtop
        invariant from <= x <= usrtop == old(usrtop) && d == at + (x - from)
        invariant forall k :: at <= k < d ==> mem[k] == old(mem[from + (k - at)])
        invariant forall k :: x <= k < usrtop ==> mem[k] == old(mem[k])
        invariant forall k :: 0 <= k < at ==> mem[k] == old(mem[k])
      {
        mem[d] := mem[x];
        x, d := x + 1, d + 1;
      }
      usrtop := d;
    }

    /** ED08: move everything from `at` to `top` up by n. */
    method OpenGap(at: nat, top: nat, n: nat)
      requires at <= top && top + n <= mem.Length
      modifies mem
      ensures mem[at + n..top + n] == old(mem[at..top])
      ensures forall k :: 0 <= k < at ==> mem[k] == old(mem[k])
    {
      var x, d := top, top + n;
      ghost var was := mem[..];
      while x != at
        invariant at <= x <= top && d == x + n
        invariant mem[d..top + n] == was[x..top]
        invariant forall k :: 0 <= k < x ==> mem[k] == was[k]
      {
        x, d := x - 1, d - 1;
        ghost var before := mem[d + 1..top + n];
        mem[d] := mem[x];
        assert mem[d..top + n] == [was[x]] + before;
        assert was[x..top] == [was[x]] + was[x + 1..top];
      }
    }

    /** ED10: the typed text with its EOL to x. */
    method CopyText(scr: nat, x: nat, ghost t: seq<Byte>)
      requires scr + |t| < x && x + |t| < mem.Length && mem[scr..scr + |t| + 1] == t + [EOL] && EOL !in t
      modifies mem
      ensures mem[x..x + |t| + 1] == t + [EOL]
      ensures forall k :: 0 <= k < mem.Length && !(x <= k < x + |t| + 1) ==> mem[k] == old(mem[k])
    {
      var i := 0;
      ghost var s := t + [EOL];
      forall k | 0 <= k <= |t| ensures mem[scr + k] == s[k] { assert mem[scr..scr + |t| + 1][k] == s[k]; }
      while true
        invariant 0 <= i <= |t|
        invariant forall k :: scr <= k < scr + |t| + 1 ==> mem[k] == s[k - scr]
        invariant forall k :: x <= k < x + i ==> mem[k] == s[k - x]
        invariant forall k :: 0 <= k < mem.Length && !(x <= k < x + i) ==> mem[k] == old(mem[k])
        decreases |t| - i
      {
        var a := mem[scr + i];
        assert a == s[i];
        mem[x + i] := a;
        i := i + 1;
        if a == EOL {
          assert i == |t| + 1;
          assert mem[x..x + |t| + 1] == s;
          return;
        }
      }
    }

    /** ED05 to ED06: put EOL after the last character that is not a space.  The result is
        the length of the line to be: number, text and EOL. */
    method Trim(scr: nat, ghost t: seq<Byte>) returns (b: nat)
      requires t != [] && t[0] != SPACE && EOL !in t && scr + |t| < usrbas <= mem.Length && mem[scr..scr + |t| + 1] == t + [EOL]
      modifies mem
      ensures b == |Trimmed(t)| + 3 && 0 < |Trimmed(t)| <= |t| && mem[scr..scr + |Trimmed(t)| + 1] == Trimmed(t) + [EOL]
      ensures forall k :: 0 <= k < mem.Length && !(scr <= k < usrbas) ==> mem[k] == old(mem[k])
    {
      ghost var s := t + [EOL];
      forall k | 0 <= k <= |t| ensures mem[scr + k] == s[k] { assert mem[scr..scr + |t| + 1][k] == s[k]; }
      var n := 0;
      while mem[scr + n] != EOL
        invariant 0 <= n <= |t| && mem[..] == old(mem[..])
        decreases |t| - n
      {
        assert mem[scr + n] == s[n];
        n := n + 1;
      }
      assert n == |t| by { assert mem[scr + n] == s[n]; }
      b := n + 4;
      var x := n;
      ghost var left := t;
      while true
        invariant mem[..] == old(mem[..])
        invariant left != [] && x == |left| <= |t| && left == t[..x] && b == x + 4 && Trimmed(left) == Trimmed(t)
        decreases x
      {
        x := x - 1;
        b := b - 1;
        assert mem[scr + x] == s[x] == t[x];
        if mem[scr + x] != SPACE { break; }
        TrimmedIs(t);
        assert left[..|left| - 1] == t[..x];
        left := t[..x];
      }
      TrimmedIs(t);
      assert Trimmed(t) == t[..x + 1];
      mem[scr + x + 1] := EOL;
      forall k | 0 <= k <= x + 1 ensures mem[scr + k] == (Trimmed(t) + [EOL])[k] {}
      assert mem[scr..scr + x + 2] == Trimmed(t) + [EOL];
    }

    /** Where the line numbered n is or belongs, looking from CURSOR when that is not past it. */
    method Locate(n: Word) returns (found: bool)
      requires Valid()
      modifies this`cursor
      ensures Valid() && From(cursor, Rank(prog, n)) && found == Present(prog, n)
    {
      hide Layout; hide Encode;
      ghost var k: nat :| k <= |prog| && cursor == usrbas + Offset(prog, k);
      StartsAt(k);
      StartsAt(0);
      NothingBefore(prog);
      var x := usrbas;
      ghost var j: nat := 0;
      if cursor != usrtop {
        if k == |prog| { AreaFrom(prog, k); }
        var w := NumberAt(cursor, k);
        if n >= w {
          x := cursor;
          j := k;
        }
      }
      x, found := FindLine(n, x, j);
      cursor := x;
    }

    /** The line at CURSOR is taken out. */
    method Remove(n: Word)
      requires Valid() && Present(prog, n) && From(cursor, Rank(prog, n))
      modifies this`usrtop, this`prog, mem
      ensures Valid() && prog == Deleted(old(prog), n) && From(cursor, Rank(prog, n)) && !Present(prog, n) && usrtop <= old(usrtop)
      ensures forall k :: 0 <= k < usrbas ==> mem[k] == old(mem[k])
    {
      hide Layout; hide Encode;
      ghost var p, i := prog, Rank(prog, n);
      ghost var w := NumberAt(cursor, i);
      var from := SkipText(cursor + 2, p[i].text, Layout(p[i + 1..]));
      ghost var low := mem[usrbas..cursor];
      AreaFrom(p, i);
      assert low == mem[usrbas..usrtop][..Offset(p, i)];
      CloseGap(cursor, from);
      assert mem[usrbas..cursor] == low;
      DeletedSorted(p, n);
      prog := Deleted(p, n);
      Rejoin(p, prog, i, i + 1);
      Together(i);
    }

    /** Two parts of the area make the whole. */
    lemma Together(i: nat)
      requires Sorted(prog) && i <= |prog| && usrbas <= cursor <= usrtop <= mem.Length && cursor == usrbas + Offset(prog, i)
      requires mem[usrbas..cursor] == Layout(prog[..i]) && mem[cursor..usrtop] == Layout(prog[i..])
      ensures Valid() && From(cursor, i)
    {
      hide Layout;
      assert prog == prog[..i] + prog[i..];
      LayoutAppend(prog[..i], prog[i..]);
      assert mem[usrbas..usrtop] == mem[usrbas..cursor] + mem[cursor..usrtop];
    }

    /** ED09 and ED10: number and text at x. */
    method FillLine(x: nat, n: Word, scr: nat, ghost l: Line)
      requires x + |l.text| + 3 <= mem.Length && l.number == n
      requires EOL !in l.text && scr + |l.text| < x && mem[scr..scr + |l.text| + 1] == l.text + [EOL]
      modifies mem
      ensures mem[x..x + |l.text| + 3] == Encode(l)
      ensures forall k :: 0 <= k < mem.Length && !(x <= k < x + |l.text| + 3) ==> mem[k] == old(mem[k])
    {
      hide Encode;
      mem[x], mem[x + 1] := n / 0x100, n % 0x100;
      assert mem[scr..scr + |l.text| + 1] == l.text + [EOL];
      CopyText(scr, x + 2, l.text);
      assert mem[..][x + 2..x + 2 + |l.text| + 1] == mem[x + 2..x + 2 + |l.text| + 1];
      NewLine(mem[..], x, l);
    }

    /** ED07 and ED08: make room at CURSOR; what lies below it stays. */
    method Widen(b: nat, scr: nat, ghost t: seq<Byte>)
      requires usrbas <= cursor <= usrtop && usrtop + b <= mem.Length && scr + |t| < usrbas && mem[scr..scr + |t| + 1] == t + [EOL]
      modifies mem
      ensures mem[usrbas..cursor] == old(mem[usrbas..cursor]) && mem[cursor + b..usrtop + b] == old(mem[cursor..usrtop])
      ensures mem[scr..scr + |t| + 1] == t + [EOL]
    {
      ghost var was := mem[..];
      OpenGap(cursor, usrtop, b);
      SameSlice(was, mem[..], usrbas, cursor);
      SameSlice(was, mem[..], scr, scr + |t| + 1);
    }

    /** ED07 to ED10: make room at CURSOR and write the line there. */
    method WriteLine(n: Word, scr: nat, b: nat, ghost l: Line)
      requires usrbas <= cursor <= usrtop && usrtop + b <= mem.Length && b == |l.text| + 3 && l.number == n
      requires EOL !in l.text && scr + |l.text| < usrbas && mem[scr..scr + |l.text| + 1] == l.text + [EOL]
      modifies mem, this`usrtop
      ensures usrtop == old(usrtop) + b && mem[usrbas..cursor] == old(mem[usrbas..cursor])
      ensures mem[cursor..usrtop] == Encode(l) + old(mem[cursor..usrtop])
    {
      hide Encode;
      ghost var high := mem[cursor..usrtop];
      Widen(b, scr, l.text);
      ghost var wide := mem[..];
      assert wide[cursor + b..usrtop + b] == high;
      FillLine(cursor, n, scr, l);
      usrtop := usrtop + b;
      LineIn(wide, mem[..], usrbas, cursor, cursor + b, usrtop, Encode(l), high);
      assert mem[..][cursor..usrtop] == mem[cursor..usrtop];
    }

    /** A new line at CURSOR; false when there is no room below `limit`. */
    method Insert(n: Word, scr: nat, limit: nat, ghost t: seq<Byte>) returns (ok: bool)
      requires Valid() && From(cursor, Rank(prog, n)) && !Present(prog, n) && limit <= mem.Length
      requires t != [] && t[0] != SPACE && EOL !in t && scr + |t| < usrbas && mem[scr..scr + |t| + 1] == t + [EOL]
      modifies this`usrtop, this`prog, mem
      ensures Valid() && ok == (old(usrtop) + |Trimmed(t)| + 3 <= limit)
      ensures prog == if ok then Inserted(old(prog), Line(n, Trimmed(t))) else old(prog)
    {
      hide Layout; hide Encode; hide Trimmed; hide Sorted; hide Inserted; hide Rank; hide Present; hide Offset;
      ghost var p, i, l := prog, Rank(prog, n), Line(n, Trimmed(t));
      AreaFrom(p, i);
      assert mem[usrbas..cursor] == mem[usrbas..usrtop][..Offset(p, i)];
      ghost var was := mem[..];
      var b := Trim(scr, t);
      SameSlice(was, mem[..], usrbas, usrtop);
      SameSlice(was, mem[..], usrbas, cursor);
      SameSlice(was, mem[..], cursor, usrtop);
      ok := usrtop + b <= limit;
      if !ok { return; }
      ProperLine(t);
      WriteLine(n, scr, b, l);
      InsertedSorted(p, l);
      prog := Inserted(p, l);
      InsertedParts(p, l, i);
      Together(i);
    }

    /** EDITOR: number n, text typed at scr from its first character that is not a space on.
        False when the memory is full; the old line is gone then. */
    method Edit(n: Word, scr: nat, limit: nat, ghost t: seq<Byte>) returns (ok: bool)
      requires Valid() && limit <= mem.Length
      requires (t != [] ==> t[0] != SPACE) && EOL !in t && scr + |t| < usrbas && mem[scr..scr + |t| + 1] == t + [EOL]
      modifies this`cursor, this`usrtop, this`prog, mem
      ensures Valid()
      ensures prog == if ok then Edited(old(prog), n, t) else Deleted(old(prog), n)
      ensures ok <==> t == [] || usrbas + |Layout(Deleted(old(prog), n))| + |Trimmed(t)| + 3 <= limit
      ensures old(usrtop) + |t| + 3 <= limit ==> ok
    {
      hide Layout; hide Encode; hide Sorted; hide Offset;
      ghost var p := prog;
      var found := Locate(n);
      if found { Remove(n); } else { assert prog == Deleted(p, n); }
      assert mem[scr..scr + |t| + 1] == t + [EOL] by { Untouched(old(mem[..]), mem[..], scr, t, usrbas); }
      if mem[scr] == EOL {
        assert t == [] by { FirstByte(mem[scr..scr + |t| + 1], t); }
        return true;
      }
      assert t != [] by { FirstByte(mem[scr..scr + |t| + 1], t); }
      TrimmedIs(t);
      ok := Insert(n, scr, limit, t);
    }
  }

  lemma FirstByte(s: seq<Byte>, t: seq<Byte>)
    requires s == t + [EOL] && EOL !in t
    ensures s[0] == EOL <==> t == []
  {}

  lemma Untouched(a: seq<Byte>, b: seq<Byte>, scr: nat, t: seq<Byte>, usrbas: nat)
    requires |a| == |b| && scr + |t| < usrbas <= |a| && a[scr..scr + |t| + 1] == t + [EOL]
    requires forall k :: 0 <= k < usrbas ==> b[k] == a[k]
    ensures b[scr..scr + |t| + 1] == t + [EOL]
  {
    assert b[scr..scr + |t| + 1] == a[scr..scr + |t| + 1];
  }

  lemma SameSlice(a: seq<Byte>, b: seq<Byte>, i: nat, j: nat)
    requires i <= j <= |a| == |b| && forall k :: i <= k < j ==> b[k] == a[k]
    ensures b[i..j] == a[i..j]
  {}

  /** Only the bytes from i to j differ. */
  lemma LineIn(a: seq<Byte>, b: seq<Byte>, from: nat, i: nat, j: nat, to: nat, mid: seq<Byte>, high: seq<Byte>)
    requires from <= i <= j <= to <= |a| == |b| && forall k :: 0 <= k < |a| && !(i <= k < j) ==> b[k] == a[k]
    requires b[i..j] == mid && a[j..to] == high
    ensures b[from..i] == a[from..i] && b[i..to] == mid + high
  {
    SameSlice(a, b, from, i);
    SameSlice(a, b, j, to);
    SliceJoin(b, i, j, to);
  }

  lemma SliceJoin(a: seq<Byte>, i: nat, j: nat, k: nat)
    requires i <= j <= k <= |a|
    ensures a[i..k] == a[i..j] + a[j..k]
  {}

  lemma NothingBefore(p: seq<Line>)
    ensures Offset(p, 0) == 0
  {
    assert p[..0] == [];
  }

  lemma ProperLine(t: seq<Byte>)
    requires t != [] && t[0] != SPACE && EOL !in t
    ensures Trimmed(t) != [] && EOL !in Trimmed(t)
  {
    TrimmedIs(t);
  }

  /** The parts of the program before and after a deleted line. */
  lemma Rejoin(p: seq<Line>, d: seq<Line>, i: nat, j: nat)
    requires i <= j <= |p| && d == p[..i] + p[j..]
    ensures d[..i] == p[..i] && d[i..] == p[j..] && Offset(d, i) == Offset(p, i)
  {}

  lemma InsertedParts(p: seq<Line>, l: Line, i: nat)
    requires i == Rank(p, l.number)
    ensures var d := Inserted(p, l);
            d[..i] == p[..i] && Layout(d[i..]) == Encode(l) + Layout(p[i..]) && Offset(d, i) == Offset(p, i) && i <= |d|
  {
    hide Encode;
    var d := Inserted(p, l);
    assert d[i..] == [l] + p[i..];
    assert ([l] + p[i..])[1..] == p[i..];
  }

  /** Number and text written at x make a line. */
  lemma NewLine(m: seq<Byte>, x: nat, l: Line)
    requires x + |l.text| + 3 <= |m| && m[x] == l.number / 0x100 && m[x + 1] == l.number % 0x100
    requires m[x + 2..x + 2 + |l.text| + 1] == l.text + [EOL]
    ensures m[x..x + |l.text| + 3] == Encode(l)
  {
    assert m[x..x + |l.text| + 3] == [m[x], m[x + 1]] + m[x + 2..x + 2 + |l.text| + 1];
  }

  lemma EncodeLength(l: Line)
    ensures |Encode(l)| == |l.text| + 3
  {}

  lemma EmptyTail(p: seq<Line>, k: nat)
    requires k <= |p| && Layout(p[k..]) == []
    ensures k == |p|
  {}
}
