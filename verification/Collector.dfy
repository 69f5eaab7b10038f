/**
  The Lisp interpreter's cells and its mark-and-sweep collector.  Cell i stands at address
  CELTOP + 4 * i; its two words are car[i] and cdr[i].  Words below CELTOP stand for atoms,
  a first word of $8000 and above makes the cell a number, and bit 0 of the first word is
  the mark.
 */
module Collector {
  import opened Machine

  const CELTOP := 0x800
  const CELBTM := 0x8000
  const CELLS := 7680
  const NIL: Word := 0x418

  predicate IsCell(w: int) { CELTOP <= w < CELBTM && (w - CELTOP) % 4 == 0 }

  function Index(w: Word): nat
    requires IsCell(w)
    ensures Index(w) < CELLS
  {
    (w - CELTOP) / 4
  }

  function Address(i: nat): (w: Word)
    requires i < CELLS
    ensures IsCell(w) && Index(w) == i
  {
    CELTOP + 4 * i
  }

  /** An atom, which is the address of a two-byte slot, or a cell. */
  predicate IsValue(w: Word) { (w < CELTOP && w % 2 == 0) || IsCell(w) }

  // ---------- the graph of cells ----------

  datatype Graph = Graph(car: seq<Word>, cdr: seq<Word>)

  predicate Pair(g: Graph, i: nat)
    requires i < |g.car|
  {
    g.car[i] < 0x8000
  }

  /** All mark bits are clear.  Free cells may hold anything else. */
  ghost predicate WellFormed(g: Graph) {
    |g.car| == CELLS && |g.cdr| == CELLS && forall i :: 0 <= i < CELLS ==> g.car[i] % 2 == 0
  }

  /** j is the cell that the car or the cdr of the pair i points to. */
  predicate Child(g: Graph, i: nat, j: nat)
    requires i < |g.car| && i < |g.cdr|
  {
    Pair(g, i) && ((IsCell(g.car[i]) && Index(g.car[i]) == j) || (IsCell(g.cdr[i]) && Index(g.cdr[i]) == j))
  }

  predicate PointsTo(x: Word, i: nat) { IsCell(x) && Index(x) == i }

  ghost predicate ReachIn(g: Graph, x: Word, i: nat, n: nat)
    requires WellFormed(g)
    decreases n
  {
    if n == 0 then PointsTo(x, i)
    else exists j: nat :: j < CELLS && ReachIn(g, x, j, n - 1) && Child(g, j, i)
  }

  ghost predicate Reach(g: Graph, x: Word, i: nat)
    requires WellFormed(g)
  {
    exists n: nat :: ReachIn(g, x, i, n)
  }

  ghost predicate Reachable(g: Graph, roots: seq<Word>, i: nat)
    requires WellFormed(g)
  {
    exists r :: r in roots && Reach(g, r, i)
  }

  /** x is an atom or a cell, and so is all that can be reached from it. */
  ghost predicate Proper(g: Graph, x: Word)
    requires WellFormed(g)
  {
    IsValue(x) && forall i: nat :: i < CELLS && Reach(g, x, i) && Pair(g, i) ==> IsValue(g.car[i]) && IsValue(g.cdr[i])
  }

  /** Everything the cells of m point to is in m. */
  ghost predicate Closed(g: Graph, m: set<nat>)
    requires WellFormed(g)
  {
    forall i, j: nat :: i in m && i < CELLS && Child(g, i, j) ==> j in m
  }

  lemma ReachSelf(g: Graph, x: Word, i: nat)
    requires WellFormed(g) && PointsTo(x, i)
    ensures Reach(g, x, i)
  {
    assert ReachIn(g, x, i, 0);
  }

  lemma {:induction false} ReachThrough(g: Graph, x: Word, i: nat, y: Word, j: nat, n: nat)
    requires WellFormed(g) && Reach(g, x, i) && i < CELLS && Pair(g, i) && (y == g.car[i] || y == g.cdr[i])
    requires ReachIn(g, y, j, n)
    ensures Reach(g, x, j)
    decreases n
  {
    if n == 0 {
      var k: nat :| ReachIn(g, x, i, k);
      assert Child(g, i, j);
      assert ReachIn(g, x, j, k + 1);
    } else {
      var h: nat :| h < CELLS && ReachIn(g, y, h, n - 1) && Child(g, h, j);
      ReachThrough(g, x, i, y, h, n - 1);
      var k: nat :| ReachIn(g, x, h, k);
      assert ReachIn(g, x, j, k + 1);
    }
  }

  lemma ReachChild(g: Graph, x: Word, i: nat, y: Word)
    requires WellFormed(g) && Reach(g, x, i) && i < CELLS && Pair(g, i) && (y == g.car[i] || y == g.cdr[i])
    ensures forall j: nat :: Reach(g, y, j) ==> Reach(g, x, j)
  {
    forall j: nat | Reach(g, y, j) ensures Reach(g, x, j) {
      var n: nat :| ReachIn(g, y, j, n);
      ReachThrough(g, x, i, y, j, n);
    }
  }

  lemma {:induction false} ClosedReach(g: Graph, m: set<nat>, x: Word, i: nat, n: nat)
    requires WellFormed(g) && Closed(g, m) && (IsCell(x) ==> Index(x) in m) && ReachIn(g, x, i, n)
    ensures i in m
    decreases n
  {
    if n != 0 {
      var j: nat :| j < CELLS && ReachIn(g, x, j, n - 1) && Child(g, j, i);
      ClosedReach(g, m, x, j, n - 1);
    }
  }

  /** Closed sets that hold the roots and nothing unreachable are the reachable cells. */
  lemma ExactlyReachable(g: Graph, m: set<nat>, roots: seq<Word>)
    requires WellFormed(g) && Closed(g, m)
    requires forall r :: r in roots && IsCell(r) ==> Index(r) in m
    requires forall i :: i in m ==> Reachable(g, roots, i)
    ensures forall i: nat :: i in m <==> Reachable(g, roots, i)
  {
    forall i: nat | Reachable(g, roots, i) ensures i in m {
      var r :| r in roots && Reach(g, r, i);
      var n: nat :| ReachIn(g, r, i, n);
      ClosedReach(g, m, r, i, n);
    }
  }

  // ---------- marks ----------

  /** The first words with exactly the cells of m marked. */
  ghost predicate Marked(car: seq<Word>, g: Graph, m: set<nat>)
    requires WellFormed(g)
  {
    |car| == CELLS && forall i :: 0 <= i < CELLS ==> car[i] == g.car[i] + if i in m then 1 else 0
  }

  ghost predicate InCells(m: set<nat>) { forall i :: i in m ==> i < CELLS }

  ghost function UpTo(n: nat): set<nat> { if n == 0 then {} else UpTo(n - 1) + {n - 1} }

  lemma {:induction false} UpToHas(n: nat)
    ensures forall i: nat :: i in UpTo(n) <==> i < n
  {
    if n != 0 { UpToHas(n - 1); }
  }

  /** The cells in use. */
  ghost function Live(g: Graph, roots: seq<Word>): set<nat>
    requires WellFormed(g)
  {
    set i | i in UpTo(CELLS) && Reachable(g, roots, i)
  }

  /** A set of cells that marking from x cannot leave. */
  ghost predicate Bounds(g: Graph, live: set<nat>, x: Word)
    requires WellFormed(g)
  {
    InCells(live) && Closed(g, live) && (IsCell(x) ==> Index(x) in live)
  }

  lemma LiveBounds(g: Graph, roots: seq<Word>)
    requires WellFormed(g)
    ensures forall r :: r in roots ==> Bounds(g, Live(g, roots), r)
  {
    hide Reach;
    UpToHas(CELLS);
    var live := Live(g, roots);
    forall i, j: nat | i in live && i < CELLS && Child(g, i, j) ensures j in live {
      var r :| r in roots && Reach(g, r, i);
      if IsCell(g.car[i]) && Index(g.car[i]) == j { ReachSelf(g, g.car[i], j); ReachChild(g, r, i, g.car[i]); }
      else { ReachSelf(g, g.cdr[i], j); ReachChild(g, r, i, g.cdr[i]); }
    }
    forall r | r in roots ensures Bounds(g, live, r) {
      if IsCell(r) { ReachSelf(g, r, Index(r)); }
    }
  }

  lemma {:induction false} UpToCount(n: nat)
    ensures |UpTo(n)| == n
  {
    if n != 0 {
      UpToHas(n - 1);
      UpToCount(n - 1);
    }
  }

  ghost function Elements(s: seq<nat>): set<nat> { set i | i in s }

  lemma {:induction false} ListCount(s: seq<nat>)
    requires NoDuplicates(s)
    ensures |Elements(s)| == |s|
    decreases |s|
  {
    if s == [] {
      assert Elements(s) == {};
    } else {
      var t := s[..|s| - 1];
      ListCount(t);
      assert Elements(s) == Elements(t) + {s[|s| - 1]};
    }
  }

  /** A list of what a part of 0..n leaves has one entry for each. */
  lemma RestCount(n: nat, live: set<nat>, s: seq<nat>)
    requires NoDuplicates(s) && live <= UpTo(n) && forall i: nat :: i in s <==> i < n && i !in live
    ensures |s| == n - |live|
  {
    hide UpTo;
    ListCount(s);
    UpToHas(n);
    UpToCount(n);
    assert Elements(s) == UpTo(n) - live;
  }

  /** A list of the cells not in use has one entry for each. */
  lemma UnusedCount(g: Graph, roots: seq<Word>, s: seq<nat>)
    requires WellFormed(g) && NoDuplicates(s)
    requires forall i: nat :: i in s <==> i < CELLS && !Reachable(g, roots, i)
    ensures |s| == CELLS - |Live(g, roots)|
  {
    hide Reachable; hide UpTo; hide NoDuplicates;
    UpToHas(CELLS);
    RestCount(CELLS, Live(g, roots), s);
  }

  /** Marking one more cell of live leaves one less to mark. */
  lemma OneLess(live: set<nat>, m: set<nat>, i: nat)
    requires i in live && i !in m
    ensures |live - (m + {i})| == |live - m| - 1
  {
    assert live - (m + {i}) == (live - m) - {i};
  }

  lemma {:induction false} SubsetCount(a: set<nat>, b: set<nat>)
    requires a <= b
    ensures |a| <= |b|
  {
    if a != {} {
      var x :| x in a;
      SubsetCount(a - {x}, b - {x});
    }
  }

  lemma BoundsCell(g: Graph, live: set<nat>, x: Word)
    requires WellFormed(g) && Bounds(g, live, x)
    ensures IsCell(x) ==> Index(x) in live
  {}

  lemma BoundsChild(g: Graph, live: set<nat>, x: Word, i: nat)
    requires WellFormed(g) && Bounds(g, live, x) && i in live && Pair(g, i)
    ensures Bounds(g, live, g.car[i]) && Bounds(g, live, g.cdr[i])
  {}

  /** What marking from x adds: cells reachable from x only, with their children, except
      that the cdr named by `open` may still have to be followed. */
  ghost predicate Added(g: Graph, x: Word, m0: set<nat>, m: set<nat>, open: Word)
    requires WellFormed(g)
  {
    && m0 <= m && InCells(m)
    && (forall i :: i in m && i !in m0 ==> Reach(g, x, i))
    && forall i, j: nat :: i in m && i !in m0 && Child(g, i, j) ==> j in m || PointsTo(open, j)
  }

  /** Reading and setting the mark of cell i. */
  lemma MarkReads(car: seq<Word>, g: Graph, m: set<nat>, i: nat)
    requires WellFormed(g) && Marked(car, g, m) && i < CELLS
    ensures (car[i] % 2 == 1) == (i in m)
    ensures i !in m ==> car[i] == g.car[i] && car[i] < 0xffff && Marked(car[i := car[i] + 1], g, m + {i})
  {}

  lemma ProperChild(g: Graph, x: Word, i: nat)
    requires WellFormed(g) && Proper(g, x) && i < CELLS && Reach(g, x, i) && Pair(g, i)
    ensures Proper(g, g.car[i]) && Proper(g, g.cdr[i])
  {
    hide Reach;
    ReachChild(g, x, i, g.car[i]);
    ReachChild(g, x, i, g.cdr[i]);
  }

  lemma ProperValue(g: Graph, x: Word)
    requires WellFormed(g) && Proper(g, x)
    ensures IsValue(x)
  {}

  lemma AddedNone(g: Graph, x: Word, m0: set<nat>)
    requires WellFormed(g) && InCells(m0)
    ensures Added(g, x, m0, m0, x)
  {
    hide Reach;
  }

  /** One turn of the marking loop: cell i marked, its car marked by m1, its cdr still open. */
  lemma AddedStep(g: Graph, x: Word, m0: set<nat>, m: set<nat>, p: Word, i: nat, m1: set<nat>)
    requires WellFormed(g) && i < CELLS && Added(g, x, m0, m, p) && PointsTo(p, i) && Reach(g, x, i) && Pair(g, i)
    requires Proper(g, x)
    requires Added(g, g.car[i], m + {i}, m1, NIL) && (IsCell(g.car[i]) ==> Index(g.car[i]) in m1)
    ensures Added(g, x, m0, m1, g.cdr[i])
    ensures forall j :: PointsTo(g.cdr[i], j) ==> Reach(g, x, j)
  {
    hide Reach;
    ReachChild(g, x, i, g.car[i]);
    ReachChild(g, x, i, g.cdr[i]);
    forall j | PointsTo(g.cdr[i], j) ensures Reach(g, g.cdr[i], j) { ReachSelf(g, g.cdr[i], j); }
  }

  /** The marking loop ends: what was open is an atom or marked. */
  lemma AddedEnd(g: Graph, x: Word, m0: set<nat>, m: set<nat>, p: Word)
    requires WellFormed(g) && Added(g, x, m0, m, p) && (IsCell(p) ==> Index(p) in m)
    ensures Added(g, x, m0, m, NIL)
  {
    hide Reach;
  }

  /** A number is marked: it has no children. */
  lemma AddedNumber(g: Graph, x: Word, m0: set<nat>, m: set<nat>, p: Word, i: nat)
    requires WellFormed(g) && i < CELLS && Added(g, x, m0, m, p) && PointsTo(p, i) && Reach(g, x, i) && !Pair(g, i)
    ensures Added(g, x, m0, m + {i}, NIL)
  {
    hide Reach;
  }

  /** The marking loop at its head: what has been added so far and the word p to go on with. */
  ghost predicate Turn(g: Graph, x: Word, live: set<nat>, m0: set<nat>, m: set<nat>, p: Word)
    requires WellFormed(g)
  {
    && Proper(g, x) && Added(g, x, m0, m, p) && Bounds(g, live, p) && |live - m| <= |live - m0|
    && IsValue(p) && (p == x || (IsCell(x) ==> Index(x) in m))
    && forall j :: PointsTo(p, j) ==> Reach(g, x, j)
  }

  lemma TurnFirst(g: Graph, x: Word, live: set<nat>, m0: set<nat>)
    requires WellFormed(g) && InCells(m0) && Proper(g, x) && Bounds(g, live, x)
    ensures Turn(g, x, live, m0, m0, x)
  {
    hide Reach; hide Bounds;
    AddedNone(g, x, m0);
    forall j | PointsTo(x, j) ensures Reach(g, x, j) { ReachSelf(g, x, j); }
  }

  /** p is an atom or already marked. */
  lemma TurnLast(g: Graph, x: Word, live: set<nat>, m0: set<nat>, m: set<nat>, p: Word)
    requires WellFormed(g) && Turn(g, x, live, m0, m, p)
    ensures IsCell(p) <==> p >= CELTOP
    ensures p < CELTOP || Index(p) in m ==> Added(g, x, m0, m, NIL) && (IsCell(x) ==> Index(x) in m)
  {
    hide Reach; hide Bounds; hide Proper; hide Added;
    if p < CELTOP || Index(p) in m { AddedEnd(g, x, m0, m, p); }
  }

  /** p is a number that was not marked. */
  lemma TurnNumber(g: Graph, x: Word, live: set<nat>, m0: set<nat>, m: set<nat>, p: Word, i: nat)
    requires WellFormed(g) && Turn(g, x, live, m0, m, p) && PointsTo(p, i) && !Pair(g, i)
    ensures Added(g, x, m0, m + {i}, NIL) && (IsCell(x) ==> Index(x) in m + {i})
  {
    hide Reach; hide Bounds; hide Proper; hide Added;
    AddedNumber(g, x, m0, m, p, i);
  }

  /** p is a pair that was not marked: what its car may be marked with. */
  lemma TurnPair(g: Graph, x: Word, live: set<nat>, m0: set<nat>, m: set<nat>, p: Word, i: nat)
    requires WellFormed(g) && Turn(g, x, live, m0, m, p) && PointsTo(p, i) && Pair(g, i) && i !in m
    ensures |live - (m + {i})| < |live - m| <= |live - m0|
    ensures InCells(m + {i}) && Proper(g, g.car[i]) && Bounds(g, live, g.car[i])
  {
    hide Reach; hide Proper;
    assert i in live;
    OneLess(live, m, i);
    ProperChild(g, x, i);
  }

  lemma AddedGrows(g: Graph, x: Word, m0: set<nat>, m: set<nat>)
    requires WellFormed(g) && Added(g, x, m0, m, NIL)
    ensures m0 <= m
  {}

  /** The car has been marked as well. */
  lemma TurnNext(g: Graph, x: Word, live: set<nat>, m0: set<nat>, m: set<nat>, p: Word, i: nat, m1: set<nat>)
    requires WellFormed(g) && Turn(g, x, live, m0, m, p) && PointsTo(p, i) && Pair(g, i) && i !in m
    requires Added(g, g.car[i], m + {i}, m1, NIL) && (IsCell(g.car[i]) ==> Index(g.car[i]) in m1)
    ensures Turn(g, x, live, m0, m1, g.cdr[i]) && |live - m1| < |live - m|
  {
    hide Reach; hide Added; hide Proper; hide Bounds; hide IsValue;
    BoundsCell(g, live, p);
    BoundsChild(g, live, p, i);
    OneLess(live, m, i);
    AddedGrows(g, g.car[i], m + {i}, m1);
    SubsetCount(live - m1, live - (m + {i}));
    AddedStep(g, x, m0, m, p, i, m1);
    ProperChild(g, x, i);
    ProperValue(g, g.cdr[i]);
  }

  // ---------- roots ----------

  /** A record of the atom information table. */
  datatype Atom = Atom(value: Word, plist: Word, fun: Word, kind: Byte, name: seq<Byte>)

  function WordBytes(w: Word): seq<Byte> { [w / 0x100, w % 0x100] }

  function Encode(a: Atom): seq<Byte> {
    WordBytes(a.value) + WordBytes(a.plist) + WordBytes(a.fun) + [a.kind] + (a.name + [0])
  }

  predicate Named(a: Atom) { 0 !in a.name }

  function Table(atoms: seq<Atom>): seq<Byte> {
    if atoms == [] then [] else Encode(atoms[0]) + Table(atoms[1..])
  }

  /** Value, property list and, when it is not machine code, the function body. */
  function AtomRoots(a: Atom): seq<Word> {
    [a.value, a.plist] + if a.fun < CELBTM then [a.fun] else []
  }

  function AllAtomRoots(atoms: seq<Atom>): seq<Word> {
    if atoms == [] then [] else AtomRoots(atoms[0]) + AllAtomRoots(atoms[1..])
  }

  /** Words of the user stack other than addresses of atom records. */
  function StackRoots(u: seq<Word>): seq<Word> {
    if u == [] then [] else (if u[0] < 0x8000 then [u[0]] else []) + StackRoots(u[1..])
  }

  lemma {:induction false} AtomRootsAre(atoms: seq<Atom>, w: Word)
    ensures w in AllAtomRoots(atoms) <==>
            exists i :: 0 <= i < |atoms| && (w == atoms[i].value || w == atoms[i].plist || (w == atoms[i].fun && w < 0x8000))
  {
    if atoms != [] {
      var rest := atoms[1..];
      AtomRootsAre(rest, w);
      if w in AllAtomRoots(rest) {
        var i :| 0 <= i < |rest| && (w == rest[i].value || w == rest[i].plist || (w == rest[i].fun && w < 0x8000));
        assert atoms[i + 1] == rest[i];
      }
      assert w in AtomRoots(atoms[0]) <==> w == atoms[0].value || w == atoms[0].plist || (w == atoms[0].fun && w < 0x8000);
      forall i | 0 < i < |atoms| ensures atoms[i] == rest[i - 1] {}
    }
  }

  lemma {:induction false} StackRootsAre(u: seq<Word>, w: Word)
    ensures w in StackRoots(u) <==> w in u && w < 0x8000
  {
    if u != [] {
      StackRootsAre(u[1..], w);
      assert u == [u[0]] + u[1..];
    }
  }

  /** The roots are the values and property lists of all atoms, the function bodies that are not
      machine code, what is on the user stack below $8000, and CATCHL. */
  lemma RootsAre(atoms: seq<Atom>, u: seq<Word>, catchl: Word, w: Word)
    ensures w in AllAtomRoots(atoms) + StackRoots(u) + [catchl] <==>
            || w == catchl || (w in u && w < 0x8000)
            || exists i :: 0 <= i < |atoms| && (w == atoms[i].value || w == atoms[i].plist || (w == atoms[i].fun && w < 0x8000))
  {
    AtomRootsAre(atoms, w);
    StackRootsAre(u, w);
  }

  ghost predicate AllProper(g: Graph, live: set<nat>, roots: seq<Word>)
    requires WellFormed(g)
  {
    forall r :: r in roots ==> Fit(g, live, r)
  }

  /** A word that MARK can be given. */
  ghost predicate Fit(g: Graph, live: set<nat>, r: Word)
    requires WellFormed(g)
  {
    Proper(g, r) && Bounds(g, live, r)
  }

  /** Marking is complete for the roots done so far. */
  ghost predicate Covers(g: Graph, done: seq<Word>, m: set<nat>)
    requires WellFormed(g)
  {
    && InCells(m) && Closed(g, m)
    && (forall r :: r in done && IsCell(r) ==> Index(r) in m)
    && (forall i :: i in m ==> Reachable(g, done, i))
  }

  lemma CoversMore(g: Graph, done: seq<Word>, m0: set<nat>, r: Word, m: set<nat>)
    requires WellFormed(g) && Covers(g, done, m0) && Added(g, r, m0, m, NIL) && (IsCell(r) ==> Index(r) in m)
    ensures Covers(g, done + [r], m)
  {
    hide Reach;
    forall i | i in m ensures Reachable(g, done + [r], i) {
      if i in m0 {
        var q :| q in done && Reach(g, q, i);
        assert q in done + [r];
      } else {
        assert r in done + [r];
      }
    }
  }

  /** How a record lies in the table. */
  lemma EncodeAt(t: seq<Byte>, a: Atom, rest: seq<Byte>)
    requires t == Encode(a) + rest
    ensures |t| >= 8
    ensures Join(t[0], t[1]) == a.value && Join(t[2], t[3]) == a.plist && Join(t[4], t[5]) == a.fun
    ensures t[7..] == a.name + [0] + rest
  {
    var head := WordBytes(a.value) + WordBytes(a.plist) + WordBytes(a.fun) + [a.kind];
    assert t == head + (a.name + [0] + rest);
    assert t[0] == a.value / 0x100 && t[1] == a.value % 0x100;
    assert t[2] == a.plist / 0x100 && t[3] == a.plist % 0x100;
    assert t[4] == a.fun / 0x100 && t[5] == a.fun % 0x100;
  }

  lemma NotEmptyTable(atoms: seq<Atom>)
    ensures Table(atoms) == [] <==> atoms == []
  {}

  lemma CoversNothing(g: Graph)
    requires WellFormed(g)
    ensures Covers(g, [], {})
  {}

  /** The roots of the record at hand are among the roots of the table. */
  lemma RootsOf(g: Graph, live: set<nat>, atoms: seq<Atom>, done: seq<Word>, left: seq<Atom>)
    requires WellFormed(g) && AllProper(g, live, AllAtomRoots(atoms)) && left != [] && done + AllAtomRoots(left) == AllAtomRoots(atoms)
    ensures Fit(g, live, left[0].value) && Fit(g, live, left[0].plist) && (left[0].fun < CELBTM ==> Fit(g, live, left[0].fun))
    ensures done + AtomRoots(left[0]) + AllAtomRoots(left[1..]) == AllAtomRoots(atoms)
  {
    hide Fit;
    var a := left[0];
    forall r | r in AtomRoots(a) ensures r in AllAtomRoots(atoms) {
      assert r in AllAtomRoots(left);
      assert r in done + AllAtomRoots(left);
    }
    assert a.value in AtomRoots(a) && a.plist in AtomRoots(a);
    assert a.fun < CELBTM ==> a.fun in AtomRoots(a);
  }

  // ---------- the free list ----------

  /** The unmarked cells below n, the last one first. */
  ghost function Unmarked(n: nat, m: set<nat>): seq<nat> {
    if n == 0 then [] else if n - 1 in m then Unmarked(n - 1, m) else [n - 1] + Unmarked(n - 1, m)
  }

  lemma {:induction false} UnmarkedIs(n: nat, m: set<nat>)
    ensures forall i: nat :: i in Unmarked(n, m) <==> i < n && i !in m
    ensures NoDuplicates(Unmarked(n, m))
  {
    if n != 0 { UnmarkedIs(n - 1, m); }
  }

  lemma UnmarkedNone(m: set<nat>)
    ensures Unmarked(0, m) == []
  {}

  ghost predicate NoDuplicates(s: seq<nat>) { forall i, j :: 0 <= i < j < |s| ==> s[i] != s[j] }

  /** w starts a list through the first words of the cells s that ends with NIL. */
  ghost predicate Chain(car: seq<Word>, w: Word, s: seq<nat>)
    decreases |s|
  {
    if s == [] then w == NIL
    else s[0] < |car| && s[0] < CELLS && w == Address(s[0]) && Chain(car, car[s[0]], s[1..])
  }

  lemma {:induction false} ChainFrame(car: seq<Word>, car': seq<Word>, w: Word, s: seq<nat>)
    requires Chain(car, w, s) && |car'| == |car|
    requires forall i :: i in s && i < |car| ==> car'[i] == car[i]
    ensures Chain(car', w, s)
    decreases |s|
  {
    if s != [] {
      assert s[0] in s;
      forall i | i in s[1..] ensures i in s { assert s == [s[0]] + s[1..]; }
      ChainFrame(car, car', car[s[0]], s[1..]);
    }
  }

  // ---------- collection as a whole ----------

  datatype Gc = Done | StackFull | CellsOver

  /** From the heap g with these roots, a collection leaves the heap g' and the free list
      that starts at `free`. */
  ghost predicate Collected(g: Graph, roots: seq<Word>, g': Graph, free: Word, count: nat)
    requires WellFormed(g)
  {
    && WellFormed(g') && g'.cdr == g.cdr
    && (forall i: nat :: i < CELLS && Reachable(g, roots, i) ==> g'.car[i] == g.car[i])
    && exists s :: Chain(g'.car, free, s) && NoDuplicates(s) && |s| == count
        && forall i: nat :: i in s <==> i < CELLS && !Reachable(g, roots, i)
  }

  /** Sweeping, as one step on the first words: `car` after the cells below n. */
  ghost predicate Swept(car: seq<Word>, g: Graph, m: set<nat>, n: nat, y: Word)
    requires WellFormed(g)
  {
    && |car| == CELLS && n <= CELLS && Chain(car, y, Unmarked(n, m))
    && (forall i :: 0 <= i < n ==> car[i] % 2 == 0 && (i in m ==> car[i] == g.car[i]))
    && (forall i :: n <= i < CELLS ==> car[i] == g.car[i] + if i in m then 1 else 0)
  }

  lemma SweepStart(car: seq<Word>, g: Graph, m: set<nat>)
    requires WellFormed(g) && Marked(car, g, m)
    ensures Swept(car, g, m, 0, NIL)
  {}

  lemma SweepKeeps(car: seq<Word>, g: Graph, m: set<nat>, n: nat, y: Word)
    requires WellFormed(g) && Swept(car, g, m, n, y) && n < CELLS && car[n] % 2 == 1
    ensures n in m && car[n] > 0 && Swept(car[n := car[n] - 1], g, m, n + 1, y)
    ensures |Unmarked(n + 1, m)| == |Unmarked(n, m)|
  {
    UnmarkedIs(n, m);
    ChainFrame(car, car[n := car[n] - 1], y, Unmarked(n, m));
  }

  lemma SweepFrees(car: seq<Word>, g: Graph, m: set<nat>, n: nat, y: Word)
    requires WellFormed(g) && Swept(car, g, m, n, y) && n < CELLS && car[n] % 2 == 0
    ensures Swept(car[n := y], g, m, n + 1, Address(n))
    ensures |Unmarked(n + 1, m)| == |Unmarked(n, m)| + 1
  {
    UnmarkedIs(n, m);
    var car' := car[n := y];
    ChainFrame(car, car', y, Unmarked(n, m));
    var s := Unmarked(n + 1, m);
    assert s == [n] + Unmarked(n, m) && s[1..] == Unmarked(n, m);
    ChainStartsEven(car, y, Unmarked(n, m));
  }

  lemma ChainStartsEven(car: seq<Word>, y: Word, s: seq<nat>)
    requires Chain(car, y, s)
    ensures y % 2 == 0 && IsValue(y)
  {
    if s != [] { Even(0x400 + 2 * s[0]); }
  }

  lemma Even(k: int)
    ensures (2 * k) % 2 == 0
  {}

  lemma SweepEnd(car: seq<Word>, g: Graph, m: set<nat>, y: Word, roots: seq<Word>)
    requires WellFormed(g) && Swept(car, g, m, CELLS, y)
    requires forall i: nat :: i in m <==> Reachable(g, roots, i)
    ensures Collected(g, roots, Graph(car, g.cdr), y, |Unmarked(CELLS, m)|)
  {
    hide Reachable;
    UnmarkedIs(CELLS, m);
  }

  ghost predicate RootsFit(g: Graph, roots: seq<Word>)
    requires WellFormed(g)
  {
    forall r :: r in roots ==> Proper(g, r)
  }

  lemma RootsAreFit(g: Graph, roots: seq<Word>)
    requires WellFormed(g) && RootsFit(g, roots)
    ensures AllProper(g, Live(g, roots), roots)
  {
    hide Proper; hide Bounds;
    LiveBounds(g, roots);
  }

  // ---------- allocation ----------

  /** The cells reachable from the roots are the same in both heaps. */
  ghost predicate SameLive(g: Graph, g': Graph, roots: seq<Word>)
    requires WellFormed(g) && WellFormed(g')
  {
    forall i: nat :: i < CELLS && Reachable(g, roots, i) ==> g'.car[i] == g.car[i] && g'.cdr[i] == g.cdr[i]
  }

  lemma {:induction false} SameReachIn(g: Graph, g': Graph, x: Word, i: nat, n: nat)
    requires WellFormed(g) && WellFormed(g')
    requires forall j: nat :: j < CELLS && Reach(g, x, j) ==> g'.car[j] == g.car[j] && g'.cdr[j] == g.cdr[j]
    ensures ReachIn(g', x, i, n) ==> ReachIn(g, x, i, n)
    ensures ReachIn(g, x, i, n) ==> ReachIn(g', x, i, n)
    decreases n
  {
    if n != 0 {
      var n1 := n - 1;
      forall j: nat | j < CELLS ensures ReachIn(g', x, j, n1) <==> ReachIn(g, x, j, n1) { SameReachIn(g, g', x, j, n1); }
      forall j: nat | j < CELLS && ReachIn(g, x, j, n1) ensures Child(g, j, i) <==> Child(g', j, i) { assert Reach(g, x, j); }
    }
  }

  lemma SameReach(g: Graph, g': Graph, roots: seq<Word>)
    requires WellFormed(g) && WellFormed(g') && SameLive(g, g', roots)
    ensures forall r, i: nat :: r in roots ==> (Reach(g', r, i) <==> Reach(g, r, i))
    ensures forall i: nat :: Reachable(g', roots, i) <==> Reachable(g, roots, i)
    ensures RootsFit(g, roots) ==> RootsFit(g', roots)
  {
    hide ReachIn;
    forall r, i: nat | r in roots ensures Reach(g', r, i) <==> Reach(g, r, i) {
      forall j: nat | j < CELLS && Reach(g, r, j) ensures g'.car[j] == g.car[j] && g'.cdr[j] == g.cdr[j] { assert Reachable(g, roots, j); }
      forall n: nat ensures ReachIn(g', r, i, n) <==> ReachIn(g, r, i, n) { SameReachIn(g, g', r, i, n); }
    }
    hide Reach;
    SameFit(g, g', roots);
  }

  lemma SameFit(g: Graph, g': Graph, roots: seq<Word>)
    requires WellFormed(g) && WellFormed(g') && SameLive(g, g', roots)
    requires forall r, i: nat :: r in roots ==> (Reach(g', r, i) <==> Reach(g, r, i))
    ensures RootsFit(g, roots) ==> RootsFit(g', roots)
  {
    hide Reach;
    if RootsFit(g, roots) {
      forall r | r in roots ensures Proper(g', r) {
        forall i: nat | i < CELLS && Reach(g', r, i) ensures g'.car[i] == g.car[i] && g'.cdr[i] == g.cdr[i] {
          assert Reachable(g, roots, i);
        }
      }
    }
  }

  /** The free list holds no cell twice, none that is in use, and not `out`. */
  ghost predicate FreeOk(g: Graph, roots: seq<Word>, free: Word, out: nat)
    requires WellFormed(g)
  {
    exists s :: Chain(g.car, free, s) && NoDuplicates(s) && out !in s
      && forall i: nat :: i in s ==> i < CELLS && !Reachable(g, roots, i)
  }

  /** What holds between any two operations. */
  ghost predicate Sound(g: Graph, roots: seq<Word>, free: Word) {
    WellFormed(g) && RootsFit(g, roots) && FreeOk(g, roots, free, CELLS)
  }

  lemma CollectedSound(g: Graph, roots: seq<Word>, g': Graph, free: Word, count: nat)
    requires WellFormed(g) && RootsFit(g, roots) && Collected(g, roots, g', free, count)
    ensures Sound(g', roots, free) && SameLive(g, g', roots) && (count > 0 ==> free != NIL)
  {
    hide Reachable; hide RootsFit;
    SameReach(g, g', roots);
    var s :| Chain(g'.car, free, s) && NoDuplicates(s) && |s| == count
      && forall i: nat :: i in s <==> i < CELLS && !Reachable(g, roots, i);
    assert CELLS !in s;
  }

  lemma CollectedCount(g: Graph, roots: seq<Word>, g': Graph, free: Word, count: nat)
    requires WellFormed(g) && Collected(g, roots, g', free, count)
    ensures count == CELLS - |Live(g, roots)|
  {
    hide Reachable; hide Live;
    var s :| Chain(g'.car, free, s) && NoDuplicates(s) && |s| == count
      && forall i: nat :: i in s <==> i < CELLS && !Reachable(g, roots, i);
    UnusedCount(g, roots, s);
  }

  /** The head of a free list, and what is left. */
  lemma TakeFirst(g: Graph, roots: seq<Word>, free: Word)
    requires Sound(g, roots, free) && free != NIL
    ensures IsCell(free) && !Reachable(g, roots, Index(free))
    ensures FreeOk(g, roots, g.car[Index(free)], Index(free))
  {
    hide Reachable;
    var s :| Chain(g.car, free, s) && NoDuplicates(s) && CELLS !in s
      && forall i: nat :: i in s ==> i < CELLS && !Reachable(g, roots, i);
    assert s[0] in s && s == [s[0]] + s[1..];
    forall i | i in s[1..] ensures i in s {}
    assert Chain(g.car, g.car[s[0]], s[1..]) && NoDuplicates(s[1..]) && s[0] !in s[1..];
  }

  /** Everything reachable from a new pair is the pair itself or reachable from its parts. */
  lemma {:induction false} ReachPair(g: Graph, p: Word, i: nat, n: nat)
    requires WellFormed(g) && IsCell(p) && Pair(g, Index(p)) && ReachIn(g, p, i, n)
    ensures i == Index(p) || Reach(g, g.car[Index(p)], i) || Reach(g, g.cdr[Index(p)], i)
    decreases n
  {
    var k := Index(p);
    if n != 0 {
      var j: nat :| j < CELLS && ReachIn(g, p, j, n - 1) && Child(g, j, i);
      ReachPair(g, p, j, n - 1);
      if j == k {
        if PointsTo(g.car[k], i) { ReachSelf(g, g.car[k], i); } else { ReachSelf(g, g.cdr[k], i); }
      } else if Reach(g, g.car[k], j) {
        var h: nat :| ReachIn(g, g.car[k], j, h);
        assert ReachIn(g, g.car[k], i, h + 1);
      } else {
        var h: nat :| ReachIn(g, g.cdr[k], j, h);
        assert ReachIn(g, g.cdr[k], i, h + 1);
      }
    }
  }

  /** Filling an unused cell k, taken off the free list, with two words in use. */
  lemma FillPair(g: Graph, roots: seq<Word>, free: Word, k: nat, x: Word, y: Word, more: seq<Word>)
    requires WellFormed(g) && RootsFit(g, roots) && k < CELLS && !Reachable(g, roots, k) && FreeOk(g, roots, free, k)
    requires x in roots && y in roots && x < 0x8000 && forall r :: r in more ==> r in roots
    ensures var g' := Graph(g.car[k := x], g.cdr[k := y]);
            Sound(g', more + [Address(k)], free) && SameLive(g, g', roots)
  {
    hide Reach; hide FreeOk; hide RootsFit; hide Reachable; hide SameLive; hide Pair;
    FillSame(g, roots, k, x, y);
    var g' := Graph(g.car[k := x], g.cdr[k := y]);
    SameReach(g, g', roots);
    FillReach(g, g', roots, k);
    FillFit(g, g', roots, k, more);
    FillFree(g, g', roots, free, k, more);
  }

  lemma FillSame(g: Graph, roots: seq<Word>, k: nat, x: Word, y: Word)
    requires WellFormed(g) && RootsFit(g, roots) && k < CELLS && !Reachable(g, roots, k) && x in roots && x < 0x8000
    ensures var g' := Graph(g.car[k := x], g.cdr[k := y]);
            && WellFormed(g') && SameLive(g, g', roots) && Pair(g', k) && g'.car[k] == x && g'.cdr[k] == y
            && forall i: nat :: i < CELLS && i != k ==> g'.car[i] == g.car[i]
  {
    hide Reachable;
    assert Proper(g, x);
    ValueEven(x);
  }

  lemma ValueEven(x: Word)
    requires IsValue(x)
    ensures x % 2 == 0
  {
    if IsCell(x) { Even(0x400 + 2 * Index(x)); }
  }

  lemma FillReach(g: Graph, g': Graph, roots: seq<Word>, k: nat)
    requires WellFormed(g) && WellFormed(g') && k < CELLS && Pair(g', k) && g'.car[k] in roots && g'.cdr[k] in roots
    requires forall i: nat :: Reachable(g', roots, i) <==> Reachable(g, roots, i)
    ensures forall i: nat :: Reach(g', Address(k), i) ==> i == k || Reachable(g, roots, i)
  {
    hide Reach;
    forall i: nat | Reach(g', Address(k), i) ensures i == k || Reachable(g, roots, i) {
      FromPair(g', Address(k), i);
      assert i != k ==> Reachable(g', roots, i);
    }
  }

  lemma FromPair(g: Graph, p: Word, i: nat)
    requires WellFormed(g) && IsCell(p) && Pair(g, Index(p)) && Reach(g, p, i)
    ensures i == Index(p) || Reach(g, g.car[Index(p)], i) || Reach(g, g.cdr[Index(p)], i)
  {
    var n: nat :| ReachIn(g, p, i, n);
    ReachPair(g, p, i, n);
  }

  lemma FillFit(g: Graph, g': Graph, roots: seq<Word>, k: nat, more: seq<Word>)
    requires WellFormed(g) && WellFormed(g') && RootsFit(g', roots) && k < CELLS
    requires g'.car[k] in roots && g'.cdr[k] in roots && forall r :: r in more ==> r in roots
    requires Pair(g', k)
    ensures RootsFit(g', more + [Address(k)])
  {
    hide Reach;
    var p := Address(k);
    forall i: nat | i < CELLS && Reach(g', p, i) && Pair(g', i) ensures IsValue(g'.car[i]) && IsValue(g'.cdr[i]) {
      FromPair(g', p, i);
      assert Proper(g', g'.car[k]) && Proper(g', g'.cdr[k]);
    }
    assert Proper(g', p);
  }

  lemma FillFree(g: Graph, g': Graph, roots: seq<Word>, free: Word, k: nat, more: seq<Word>)
    requires WellFormed(g) && WellFormed(g') && k < CELLS && FreeOk(g, roots, free, k) && (forall r :: r in more ==> r in roots)
    requires forall i: nat :: i < CELLS && i != k ==> g'.car[i] == g.car[i]
    requires forall i: nat :: Reach(g', Address(k), i) ==> i == k || Reachable(g, roots, i)
    requires forall r, i: nat :: r in roots ==> (Reach(g', r, i) <==> Reach(g, r, i))
    ensures FreeOk(g', more + [Address(k)], free, CELLS)
  {
    hide Reach;
    var s :| Chain(g.car, free, s) && NoDuplicates(s) && k !in s && forall i: nat :: i in s ==> i < CELLS && !Reachable(g, roots, i);
    ChainFrame(g.car, g'.car, free, s);
    forall i: nat | i in s ensures i < CELLS && !Reachable(g', more + [Address(k)], i) {
      forall r | r in more + [Address(k)] ensures !Reach(g', r, i) {
        if r in more { assert r in roots; }
      }
    }
    assert CELLS !in s;
  }

  lemma SameLiveRefl(g: Graph, roots: seq<Word>)
    requires WellFormed(g)
    ensures SameLive(g, g, roots)
  {}

  lemma SameLiveTrans(g: Graph, g1: Graph, g2: Graph, roots: seq<Word>)
    requires WellFormed(g) && WellFormed(g1) && WellFormed(g2) && SameLive(g, g1, roots) && SameLive(g1, g2, roots)
    requires forall i: nat :: Reachable(g1, roots, i) <==> Reachable(g, roots, i)
    ensures SameLive(g, g2, roots)
  {
    hide Reachable;
  }

  lemma RootsMore(atoms: seq<Atom>, u: seq<Word>, catchl: Word, y: Word, x: Word)
    requires x < 0x8000 && y < 0x8000
    ensures var roots, with := AllAtomRoots(atoms) + StackRoots(u) + [catchl], AllAtomRoots(atoms) + StackRoots([y, x] + u) + [catchl];
            x in with && y in with && forall r :: r in roots ==> r in with
  {
    assert ([y, x] + u)[1..] == [x] + u;
    assert ([x] + u)[1..] == u;
    assert StackRoots([y, x] + u) == [y] + ([x] + StackRoots(u));
  }

  class Heap {
    var car: array<Word>
    var cdr: array<Word>
    var free: Word
    var count: nat             // cells found by the last collection
    var table: seq<Byte>       // atom information table, up to ATMEND
    ghost var atoms: seq<Atom> // the records in it
    var ustack: seq<Word>      // user stack, from U up to its bottom
    var catchl: Word
    const limit: int           // the least S that MARK accepts

    constructor (limit: int, atoms: seq<Atom>)
      requires atoms != [] && forall a :: a in atoms ==> Named(a)
      ensures fresh(car) && fresh(cdr) && Shape() && this.limit == limit
      ensures free == NIL && ustack == [] && catchl == NIL && this.atoms == atoms
      ensures forall i :: 0 <= i < CELLS ==> car[i] == NIL && cdr[i] == NIL
    {
      car := new Word[CELLS](_ => NIL);
      cdr := new Word[CELLS](_ => NIL);
      free, count, ustack, catchl := NIL, 0, [], NIL;
      table, this.atoms := Table(atoms), atoms;
      this.limit := limit;
    }

    ghost predicate Shape()
      reads this
    {
      car.Length == CELLS && cdr.Length == CELLS && car != cdr
      && table == Table(atoms) && atoms != [] && forall a :: a in atoms ==> Named(a)
    }

    ghost function Roots(): seq<Word>
      reads this
    {
      AllAtomRoots(atoms) + StackRoots(ustack) + [catchl]
    }

    ghost function Cells(): Graph
      reads this, car, cdr
    {
      Graph(car[..], cdr[..])
    }

    /**
      MARK: X in `x`, S at entry in `s`.  The car of an unmarked pair is marked by a
      recursive call, its cdr by going round again.  False when the stack limit was met
      (the interpreter then quits).
     */
    method Mark(x: Word, s: int, ghost g: Graph, ghost live: set<nat>, ghost m0: set<nat>) returns (ok: bool, ghost m: set<nat>)
      requires Shape() && WellFormed(g) && InCells(m0) && Marked(car[..], g, m0) && cdr[..] == g.cdr && Proper(g, x) && Bounds(g, live, x)
      modifies car
      ensures ok ==> Marked(car[..], g, m) && Added(g, x, m0, m, NIL) && (IsCell(x) ==> Index(x) in m)
      ensures s - 4 * |live - m0| >= limit ==> ok
      decreases |live - m0|
    {
      hide Added; hide Marked; hide WellFormed; hide Proper; hide Bounds; hide Turn; hide InCells;
      m, ok := m0, true;
      var p: Word := x;
      TurnFirst(g, x, live, m0);
      while true
        invariant ok && Marked(car[..], g, m) && Turn(g, x, live, m0, m, p)
        decreases |live - m|
      {
        TurnLast(g, x, live, m0, m, p);
        if p < CELTOP { return; }
        var i := Index(p);
        var w := car[i];
        MarkReads(car[..], g, m, i);
        if w % 2 == 1 { return; }
        ghost var was := car[..];
        car[i] := w + 1;
        assert car[..] == was[i := w + 1];
        if w >= 0x8000 { TurnNumber(g, x, live, m0, m, p, i); m := m + {i}; return; }
        TurnPair(g, x, live, m0, m, p, i);
        if s - 2 < limit { ok := false; return; }
        ghost var m1;
        ok, m1 := Mark(w, s - 4, g, live, m + {i});
        if !ok { return; }
        TurnNext(g, x, live, m0, m, p, i, m1);
        m := m1;
        p := cdr[i];
      }
    }

    /** MARK of one root, with what has been marked so far. */
    method MarkRoot(r: Word, s: int, ghost g: Graph, ghost live: set<nat>, ghost done: seq<Word>, ghost m0: set<nat>) returns (ok: bool, ghost m: set<nat>)
      requires Shape() && WellFormed(g) && Marked(car[..], g, m0) && cdr[..] == g.cdr && Covers(g, done, m0)
      requires Fit(g, live, r)
      modifies car
      ensures ok ==> Marked(car[..], g, m) && Covers(g, done + [r], m)
      ensures s - 4 * |live| >= limit ==> ok
    {
      hide Proper;
      assert InCells(m0);
      SubsetCount(live - m0, live);
      ok, m := Mark(r, s, g, live, m0);
      if ok { CoversMore(g, done, m0, r, m); }
    }

    /** MARKS, first part: the three words of every record of the atom table. */
    method MarkAtoms(s: int, ghost g: Graph, ghost live: set<nat>) returns (ok: bool, ghost m: set<nat>)
      requires Shape() && WellFormed(g) && Marked(car[..], g, {}) && cdr[..] == g.cdr
      requires AllProper(g, live, AllAtomRoots(atoms))
      modifies car
      ensures ok ==> Marked(car[..], g, m) && Covers(g, AllAtomRoots(atoms), m)
      ensures s - 4 * |live| >= limit ==> ok
    {
      hide Covers; hide WellFormed; hide Marked; hide Fit; hide AllProper;
      var y: nat := 0;
      ghost var done, left := [], atoms;
      m := {};
      CoversNothing(g);
      while true
        invariant y <= |table| && table[y..] == Table(left) && left != [] && done + AllAtomRoots(left) == AllAtomRoots(atoms)
        invariant forall a :: a in left ==> Named(a)
        invariant WellFormed(g) && Marked(car[..], g, m) && Covers(g, done, m)
        decreases |left|
      {
        ghost var a := left[0];
        assert a in left && Named(a);
        EncodeAt(table[y..], a, Table(left[1..]));
        RootsOf(g, live, atoms, done, left);
        var value, plist, fun := Join(table[y], table[y + 1]), Join(table[y + 2], table[y + 3]), Join(table[y + 4], table[y + 5]);
        ok, m := MarkRecord(value, plist, fun, s, g, live, done, m);
        if !ok { return; }
        y := y + 7;
        done := done + AtomRoots(a);
        assert table[y..] == table[y - 7..][7..];
        y := SkipName(y, a.name, Table(left[1..]));
        left := left[1..];
        NotEmptyTable(left);
        if y >= |table| { assert left == []; assert done + [] == done; return; }
      }
    }

    /** The name of a record and the zero after it. */
    method SkipName(from: nat, ghost name: seq<Byte>, ghost rest: seq<Byte>) returns (y: nat)
      requires from <= |table| && table[from..] == name + [0] + rest && 0 !in name
      ensures y <= |table| && table[y..] == rest
    {
      y := from;
      ghost var left := name;
      while table[y] != 0
        invariant y < |table| && table[y..] == left + [0] + rest && 0 !in left
        decreases |left|
      {
        assert table[y..][0] == table[y];
        assert left != [] && left[0] == table[y];
        assert table[y + 1..] == table[y..][1..] == left[1..] + [0] + rest;
        y, left := y + 1, left[1..];
      }
      assert table[y..][0] == table[y];
      assert left == [];
      assert table[y + 1..] == table[y..][1..] == rest;
      y := y + 1;
    }

    method MarkRecord(value: Word, plist: Word, fun: Word, s: int, ghost g: Graph, ghost live: set<nat>, ghost done: seq<Word>, ghost m0: set<nat>)
      returns (ok: bool, ghost m: set<nat>)
      requires Shape() && WellFormed(g) && Marked(car[..], g, m0) && cdr[..] == g.cdr && Covers(g, done, m0)
      requires Fit(g, live, value) && Fit(g, live, plist) && (fun < CELBTM ==> Fit(g, live, fun))
      modifies car
      ensures s - 4 * |live| >= limit ==> ok
      ensures ok ==> Marked(car[..], g, m) && Covers(g, done + ([value, plist] + if fun < CELBTM then [fun] else []), m)
    {
      hide Covers; hide WellFormed; hide Marked; hide Fit;
      ok, m := MarkRoot(value, s, g, live, done, m0);
      if !ok { return; }
      ok, m := MarkRoot(plist, s, g, live, done + [value], m);
      if !ok { return; }
      if fun < CELBTM {
        ok, m := MarkRoot(fun, s, g, live, done + [value] + [plist], m);
        assert done + [value] + [plist] + [fun] == done + ([value, plist] + [fun]);
      } else {
        assert done + [value] + [plist] == done + ([value, plist] + []);
      }
    }

    /** MARKS, second part: the words of the user stack but for record addresses. */
    method MarkStack(s: int, ghost g: Graph, ghost live: set<nat>, ghost from: seq<Word>, ghost m0: set<nat>) returns (ok: bool, ghost m: set<nat>)
      requires Shape() && WellFormed(g) && Marked(car[..], g, m0) && cdr[..] == g.cdr && Covers(g, from, m0)
      requires AllProper(g, live, StackRoots(ustack))
      modifies car
      ensures ok ==> Marked(car[..], g, m) && Covers(g, from + StackRoots(ustack), m)
      ensures s - 4 * |live| >= limit ==> ok
    {
      hide Covers; hide WellFormed; hide Marked; hide Fit;
      var u := 0;
      m, ok := m0, true;
      ghost var done := from;
      assert ustack[0..] == ustack;
      while u < |ustack|
        invariant 0 <= u <= |ustack| && done + StackRoots(ustack[u..]) == from + StackRoots(ustack)
        invariant WellFormed(g) && Marked(car[..], g, m) && Covers(g, done, m) && ok
        invariant AllProper(g, live, StackRoots(ustack[u..]))
      {
        var x := ustack[u];
        u := u + 1;
        assert ustack[u - 1..][1..] == ustack[u..];
        if x < 0x8000 {
          ok, m := MarkRoot(x, s, g, live, done, m);
          if !ok { return; }
          done := done + [x];
        }
      }
      assert ustack[u..] == [];
      assert done + [] == done;
    }

    /** MARKS. */
    method Marks(s: int, ghost g: Graph, ghost live: set<nat>) returns (ok: bool, ghost m: set<nat>)
      requires Shape() && WellFormed(g) && Marked(car[..], g, {}) && cdr[..] == g.cdr && AllProper(g, live, Roots())
      modifies car
      ensures ok ==> Marked(car[..], g, m) && forall i: nat :: i in m <==> Reachable(g, Roots(), i)
      ensures s - 4 * |live| >= limit ==> ok
    {
      hide WellFormed; hide Marked; hide Fit; hide Reachable;
      ok, m := MarkAtoms(s, g, live);
      if !ok { return; }
      ok, m := MarkStack(s, g, live, AllAtomRoots(atoms), m);
      if !ok { return; }
      assert catchl in Roots();
      ok, m := MarkRoot(catchl, s, g, live, AllAtomRoots(atoms) + StackRoots(ustack), m);
      if ok { ExactlyReachable(g, m, Roots()); }
    }

    /** COLLCT. */
    method Collect(ghost g: Graph, ghost roots: seq<Word>, ghost m: set<nat>)
      requires Shape() && WellFormed(g) && Marked(car[..], g, m) && cdr[..] == g.cdr
      requires forall i: nat :: i in m <==> Reachable(g, roots, i)
      modifies car, this`free, this`count
      ensures Collected(g, roots, Graph(car[..], cdr[..]), free, count)
    {
      hide Swept; hide Reachable; hide Unmarked;
      var i, y, u := 0, NIL, 0;
      SweepStart(car[..], g, m);
      UnmarkedNone(m);
      while i < CELLS
        invariant 0 <= i <= CELLS && Swept(car[..], g, m, i, y) && u == |Unmarked(i, m)|
      {
        ghost var was := car[..];
        if car[i] % 2 == 0 {
          SweepFrees(was, g, m, i, y);
          car[i] := y;
          assert car[..] == was[i := y];
          y := Address(i);
          u := u + 1;
        } else {
          SweepKeeps(was, g, m, i, y);
          car[i] := car[i] - 1;
          assert car[..] == was[i := was[i] - 1];
        }
        i := i + 1;
      }
      free, count := y, u;
      SweepEnd(car[..], g, m, y, roots);
    }

    /**
      GBC: mark, then sweep.  S at entry in `s`: two calls and the registers saved lie
      between it and MARK.  Fewer than three free cells are an error.
     */
    method Gbc(s: int) returns (r: Gc)
      requires Shape() && WellFormed(Cells()) && RootsFit(Cells(), Roots())
      modifies car, this`free, this`count
      ensures r != StackFull ==> Collected(old(Cells()), Roots(), Cells(), free, count)
      ensures r != StackFull ==> count == CELLS - |Live(old(Cells()), Roots())|
      ensures r == CellsOver ==> count < 3
      ensures r == Done ==> count >= 3
      ensures s - 7 - 4 * |Live(old(Cells()), Roots())| >= limit ==> r != StackFull
    {
      hide Reachable; hide Collected; hide Fit;
      ghost var g := Cells();
      ghost var live := Live(g, Roots());
      RootsAreFit(g, Roots());
      assert Marked(car[..], g, {});
      var ok; ghost var m;
      ok, m := Marks(s - 7, g, live);
      if !ok { return StackFull; }
      Collect(g, Roots(), m);
      CollectedCount(g, Roots(), Cells(), free, count);
      r := if count < 3 then CellsOver else Done;
    }

    /** NEW: the first free cell, after a collection when there is none. */
    method New(s: int) returns (r: Gc, y: Word)
      requires Shape() && Sound(Cells(), Roots(), free)
      modifies car, this`free, this`count
      ensures r != StackFull ==> WellFormed(Cells()) && SameLive(old(Cells()), Cells(), Roots()) && RootsFit(Cells(), Roots())
      ensures r == CellsOver ==> Sound(Cells(), Roots(), free)
      ensures r == Done ==> IsCell(y) && !Reachable(Cells(), Roots(), Index(y)) && FreeOk(Cells(), Roots(), free, Index(y))
      ensures cdr[..] == old(cdr[..])
      ensures old(free) != NIL ==> r == Done
      ensures old(free) == NIL && s - 11 - 4 * |Live(old(Cells()), Roots())| >= limit ==>
                r == if |Live(old(Cells()), Roots())| <= CELLS - 3 then Done else CellsOver
    {
      hide Reachable; hide RootsFit; hide FreeOk; hide Collected; hide SameLive; hide Chain; hide Live;
      r, y := Done, NIL;
      SameLiveRefl(Cells(), Roots());
      if free == NIL {
        ghost var g := Cells();
        r := Gbc(s - 4);
        if r == StackFull { return; }
        CollectedSound(g, Roots(), Cells(), free, count);
        if r == CellsOver { return; }
      }
      TakeFirst(Cells(), Roots(), free);
      y := free;
      free := car[Index(y)];
    }

    /** The roots when Y and then X are the last words on the user stack. */
    ghost function RootsWith(y: Word, x: Word): seq<Word>
      reads this
    {
      AllAtomRoots(atoms) + StackRoots([y, x] + ustack) + [catchl]
    }

    /** CONS of X and Y, which are kept on the user stack while a cell is found. */
    method Cons(x: Word, y: Word, s: int) returns (r: Gc, p: Word)
      requires Shape() && x < 0x8000 && y < 0x8000 && Sound(Cells(), RootsWith(y, x), free)
      modifies car, cdr, this`free, this`count, this`ustack
      ensures ustack == old(ustack) && Shape()
      ensures old(free) != NIL ==> r == Done
      ensures old(free) == NIL && s - 13 - 4 * |Live(old(Cells()), old(RootsWith(y, x)))| >= limit ==>
                r == if |Live(old(Cells()), old(RootsWith(y, x)))| <= CELLS - 3 then Done else CellsOver
      ensures r == CellsOver ==> Sound(Cells(), RootsWith(y, x), free)
      ensures r == Done ==>
        && IsCell(p) && !Reachable(old(Cells()), old(RootsWith(y, x)), Index(p))
        && car[Index(p)] == x && cdr[Index(p)] == y
        && Sound(Cells(), Roots() + [p], free)
        && SameLive(old(Cells()), Cells(), old(RootsWith(y, x)))
    {
      hide Reachable; hide RootsFit; hide FreeOk; hide SameLive; hide Live;
      ghost var g0, with := Cells(), RootsWith(y, x);
      ghost var roots := Roots();
      RootsMore(atoms, ustack, catchl, y, x);
      ustack := [y, x] + ustack;
      r, p := New(s - 2);
      ghost var g1 := Cells();
      if r == Done {
        SameReach(g0, g1, with);
        var k := Index(p);
        FillPair(g1, with, free, k, x, y, roots);
        cdr[k] := ustack[0];
        car[k] := ustack[1];
        assert Cells() == Graph(g1.car[k := x], g1.cdr[k := y]);
        SameLiveTrans(g0, g1, Cells(), with);
      }
      ustack := ustack[2..];
    }
  }
}
